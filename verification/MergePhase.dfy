/** The merge phase: rounds of k-way merges over slices of the sorted runs. */
module MergePhase {
  import opened Collections
  import opened KeyValue
  import opened KeyvalArray

  type Runs = seq<seq<Pair>>

  // ---------- Merging one slice ----------

  /** Which of the first n runs merge_results takes from: the first one with a least head. */
  function MinRun(rs: Runs, n: nat): (r: int)
    requires n <= |rs|
    ensures -1 <= r < n && (r >= 0 ==> rs[r] != [])
  {
    if n == 0 then -1
    else
      var m := MinRun(rs, n - 1);
      if rs[n - 1] == [] then m
      else if m == -1 || rs[m][0].key.rank > rs[n - 1][0].key.rank then n - 1
      else m
  }

  lemma {:induction false} MinRunIsLeast(rs: Runs, n: nat)
    requires n <= |rs|
    ensures MinRun(rs, n) == -1 <==> forall i | 0 <= i < n :: rs[i] == []
    ensures MinRun(rs, n) >= 0 ==>
              forall i | 0 <= i < n && rs[i] != [] :: rs[MinRun(rs, n)][0].key.rank <= rs[i][0].key.rank
  {
    if n > 0 {
      MinRunIsLeast(rs, n - 1);
    }
  }

  function Total(rs: Runs): nat {
    if rs == [] then 0 else |rs[0]| + Total(rs[1..])
  }

  function Pop(rs: Runs, i: nat): Runs
    requires i < |rs| && rs[i] != []
  {
    rs[i := rs[i][1..]]
  }

  lemma {:induction false} PopTotal(rs: Runs, i: nat)
    requires i < |rs| && rs[i] != []
    ensures Total(Pop(rs, i)) == Total(rs) - 1
  {
    if i > 0 {
      assert Pop(rs, i)[1..] == Pop(rs[1..], i - 1);
      PopTotal(rs[1..], i - 1);
    } else {
      assert Pop(rs, i)[1..] == rs[1..];
    }
  }

  /** The reference result of merging a slice. */
  function KMerge(rs: Runs): seq<Pair>
    decreases Total(rs)
  {
    var i := MinRun(rs, |rs|);
    if i == -1 then []
    else
      PopTotal(rs, i);
      [rs[i][0]] + KMerge(Pop(rs, i))
  }

  ghost predicate AllSorted(rs: Runs) {
    forall i | 0 <= i < |rs| :: SortedPairs(rs[i])
  }

  lemma {:induction false} PopFlatten(rs: Runs, i: nat)
    requires i < |rs| && rs[i] != []
    ensures multiset(Flatten(rs)) == multiset{rs[i][0]} + multiset(Flatten(Pop(rs, i)))
  {
    if i > 0 {
      assert Pop(rs, i)[1..] == Pop(rs[1..], i - 1);
      PopFlatten(rs[1..], i - 1);
    } else {
      assert Pop(rs, i)[1..] == rs[1..];
      assert rs[0] == [rs[0][0]] + rs[0][1..];
    }
  }

  lemma {:induction false} AllEmpty(rs: Runs)
    requires forall i | 0 <= i < |rs| :: rs[i] == []
    ensures Flatten(rs) == [] && Total(rs) == 0
  {
    if rs != [] {
      AllEmpty(rs[1..]);
    }
  }

  lemma {:induction false} KMergePermutes(rs: Runs)
    ensures multiset(KMerge(rs)) == multiset(Flatten(rs))
    decreases Total(rs)
  {
    var i := MinRun(rs, |rs|);
    MinRunIsLeast(rs, |rs|);
    if i == -1 {
      AllEmpty(rs);
    } else {
      PopTotal(rs, i);
      KMergePermutes(Pop(rs, i));
      PopFlatten(rs, i);
    }
  }

  ghost predicate NoneBelow(rs: Runs, rank: real) {
    forall i | 0 <= i < |rs| && rs[i] != [] :: rank <= rs[i][0].key.rank
  }

  lemma PopSorted(rs: Runs, i: nat)
    requires AllSorted(rs) && i < |rs| && rs[i] != [] && NoneBelow(rs, rs[i][0].key.rank)
    ensures AllSorted(Pop(rs, i)) && NoneBelow(Pop(rs, i), rs[i][0].key.rank)
  {
  }

  lemma {:induction false} KMergeSorted(rs: Runs, low: real)
    requires AllSorted(rs) && NoneBelow(rs, low)
    ensures SortedPairs(KMerge(rs))
    ensures KMerge(rs) != [] ==> low <= KMerge(rs)[0].key.rank
    decreases Total(rs)
  {
    var i := MinRun(rs, |rs|);
    MinRunIsLeast(rs, |rs|);
    if i != -1 {
      var p, rest := rs[i][0], KMerge(Pop(rs, i));
      PopTotal(rs, i);
      PopSorted(rs, i);
      KMergeSorted(Pop(rs, i), p.key.rank);
      SortedCons(p, rest);
    }
  }

  lemma SortedCons(p: Pair, rest: seq<Pair>)
    requires SortedPairs(rest) && (rest != [] ==> p.key.rank <= rest[0].key.rank)
    ensures SortedPairs([p] + rest)
  {
    forall j | 0 <= j < |rest| ensures p.key.rank <= rest[j].key.rank {
      assert rest[0].key.rank <= rest[j].key.rank || j == 0;
    }
  }

  /** Merging sorted runs gives a sorted permutation of what they hold. */
  lemma KMergeMeaning(rs: Runs)
    requires AllSorted(rs)
    ensures SortedPairs(KMerge(rs))
    ensures multiset(KMerge(rs)) == multiset(Flatten(rs))
  {
    KMergePermutes(rs);
    var i := MinRun(rs, |rs|);
    MinRunIsLeast(rs, |rs|);
    if i != -1 {
      KMergeSorted(rs, rs[i][0].key.rank);
    }
  }

  // ---------- Slices of a round ----------

  function SliceLen(m: nat, n: nat): nat
    requires n > 0
  {
    if m / n <= 1 then 2 else m / n
  }

  function SliceMod(m: nat, n: nat): nat
    requires n > 0
  {
    if m / n <= 1 then m % 2 else m % n
  }

  /** Where thread i of n starts in m runs, and how many runs it merges. */
  function Start(i: nat, m: nat, n: nat): nat
    requires n > 0
  {
    i * SliceLen(m, n) + if i < SliceMod(m, n) then i else SliceMod(m, n)
  }

  function Count(i: nat, m: nat, n: nat): nat
    requires n > 0
  {
    SliceLen(m, n) + if i < SliceMod(m, n) then 1 else 0
  }

  lemma SlicesAdjoin(i: nat, m: nat, n: nat)
    requires n > 0
    ensures Start(0, m, n) == 0 && Start(i, m, n) + Count(i, m, n) == Start(i + 1, m, n)
  {
    assert (i + 1) * SliceLen(m, n) == i * SliceLen(m, n) + SliceLen(m, n);
  }

  lemma Ratio(m: nat, n: nat)
    requires n > 0
    ensures m / n <= 1 <==> m < 2 * n
    ensures m == n * (m / n) + m % n
  {
    if m / n <= 1 {
      assert n * (m / n) <= n;
    } else {
      assert n * (m / n) >= n * 2;
    }
  }

  /** With at least two runs a thread the slices cover all runs. */
  lemma SlicesCover(m: nat, n: nat)
    requires n > 0 && m >= 2 * n
    ensures Start(n, m, n) == m
  {
    Ratio(m, n);
    assert m % n < n;
  }

  lemma {:induction false} StartMonotone(i: nat, j: nat, m: nat, n: nat)
    requires n > 0 && i <= j
    ensures Start(i, m, n) + 2 * (j - i) <= Start(j, m, n)
  {
    if i < j {
      StartMonotone(i, j - 1, m, n);
      SlicesAdjoin(j - 1, m, n);
    }
  }

  /** Every merge thread has a slice to merge (and so writes its output) and the slices tile the
      runs, exactly when there are at least two runs a thread. */
  lemma EveryThreadMerges(m: nat, n: nat)
    requires n > 0 && m >= 2
    ensures (Start(n, m, n) == m && forall i | 0 <= i < n :: Start(i, m, n) < m) <==> m >= 2 * n
  {
    StartMonotone(0, n, m, n);
    if m >= 2 * n {
      SlicesCover(m, n);
      forall i | 0 <= i < n ensures Start(i, m, n) < m {
        StartMonotone(i, n, m, n);
      }
    }
  }

  function Slice(rs: Runs, i: nat, n: nat): Runs
    requires 0 < n && 2 * n <= |rs| && i < n
  {
    StartMonotone(i, n, |rs|, n);
    SlicesCover(|rs|, n);
    SlicesAdjoin(i, |rs|, n);
    StartMonotone(i + 1, n, |rs|, n);
    rs[Start(i, |rs|, n)..Start(i + 1, |rs|, n)]
  }

  /** One round: thread i merges slice i. */
  function Round(rs: Runs, n: nat): (r: Runs)
    requires 0 < n && 2 * n <= |rs|
    ensures |r| == n && forall i | 0 <= i < n :: r[i] == KMerge(Slice(rs, i, n))
  {
    seq(n, i requires 0 <= i < n => KMerge(Slice(rs, i, n)))
  }

  // ---------- All rounds ----------

  function NextThreads(n: nat): nat {
    if n / 2 == 0 then 1 else n / 2
  }

  /** How many workers the start_workers of each round asks of the pool: the calling thread is a merge thread too. */
  function MergeWidths(len: nat, n: nat): (widths: seq<nat>)
    requires n > 0 && (len > 1 ==> 2 * n <= len)
    decreases len
  {
    if len <= 1 then [] else [n - 1] + MergeWidths(n, NextThreads(n))
  }

  lemma {:induction false} MergeWidthsBelow(len: nat, n: nat)
    requires n > 0 && (len > 1 ==> 2 * n <= len)
    ensures forall w :: w in MergeWidths(len, n) ==> w < n
    decreases len
  {
    if len > 1 { MergeWidthsBelow(n, NextThreads(n)); }
  }

  /** The merge phase as a whole: rounds until one run is left. */
  function MergeAll(rs: Runs, n: nat): seq<Pair>
    requires |rs| > 0 && n > 0 && (|rs| > 1 ==> 2 * n <= |rs|)
    decreases |rs|
  {
    if |rs| == 1 then rs[0] else MergeAll(Round(rs, n), NextThreads(n))
  }

  lemma SliceMeaning(rs: Runs, i: nat, n: nat)
    requires 0 < n && 2 * n <= |rs| && i < n
    ensures Start(i, |rs|, n) <= Start(i + 1, |rs|, n) <= |rs|
    ensures rs[..Start(i + 1, |rs|, n)] == rs[..Start(i, |rs|, n)] + Slice(rs, i, n)
    ensures AllSorted(rs) ==> AllSorted(Slice(rs, i, n))
  {
    hide Start, SortedPairs;
    StartMonotone(i, i + 1, |rs|, n);
    StartMonotone(i + 1, n, |rs|, n);
    SlicesCover(|rs|, n);
  }

  lemma {:induction false} SlicesFlatten(rs: Runs, n: nat, k: nat)
    requires 0 < n && 2 * n <= |rs| && k <= n && AllSorted(rs)
    ensures Start(k, |rs|, n) <= |rs|
    ensures multiset(Flatten(Round(rs, n)[..k])) == multiset(Flatten(rs[..Start(k, |rs|, n)]))
  {
    if k == 0 {
      SlicesAdjoin(0, |rs|, n);
    } else {
      SlicesFlatten(rs, n, k - 1);
      SlicesStep(rs, n, k - 1);
    }
  }

  lemma SlicesStep(rs: Runs, n: nat, i: nat)
    requires 0 < n && 2 * n <= |rs| && i < n && AllSorted(rs) && Start(i, |rs|, n) <= |rs|
    requires multiset(Flatten(Round(rs, n)[..i])) == multiset(Flatten(rs[..Start(i, |rs|, n)]))
    ensures Start(i + 1, |rs|, n) <= |rs|
    ensures multiset(Flatten(Round(rs, n)[..i + 1])) == multiset(Flatten(rs[..Start(i + 1, |rs|, n)]))
  {
    hide Start, Slice, KMerge, Round, AllSorted, SortedPairs, Flatten;
    var r := Round(rs, n);
    SliceMeaning(rs, i, n);
    KMergeMeaning(Slice(rs, i, n));
    assert r[..i + 1] == r[..i] + [r[i]];
    FlattenSnoc(r[..i], r[i]);
    FlattenConcat(rs[..Start(i, |rs|, n)], Slice(rs, i, n));
  }

  lemma RoundMeaning(rs: Runs, n: nat)
    requires 0 < n && 2 * n <= |rs| && AllSorted(rs)
    ensures AllSorted(Round(rs, n))
    ensures multiset(Flatten(Round(rs, n))) == multiset(Flatten(rs))
  {
    hide Start, Slice, KMerge, Round, Flatten, SortedPairs;
    SlicesFlatten(rs, n, n);
    SlicesCover(|rs|, n);
    assert Round(rs, n)[..n] == Round(rs, n) && rs[..|rs|] == rs;
    forall i | 0 <= i < n ensures SortedPairs(Round(rs, n)[i]) {
      SliceMeaning(rs, i, n);
      KMergeMeaning(Slice(rs, i, n));
    }
  }

  /** The merge phase ends with one sorted run holding exactly what all runs held. */
  lemma {:induction false} MergeAllMeaning(rs: Runs, n: nat)
    requires |rs| > 0 && n > 0 && (|rs| > 1 ==> 2 * n <= |rs|) && AllSorted(rs)
    ensures SortedPairs(MergeAll(rs, n))
    ensures multiset(MergeAll(rs, n)) == multiset(Flatten(rs))
    decreases |rs|
  {
    if |rs| == 1 {
      FlattenOne(rs[0]);
      assert rs == [rs[0]];
    } else {
      RoundMeaning(rs, n);
      MergeAllMeaning(Round(rs, n), NextThreads(n));
    }
  }

  // ---------- Thread counts ----------

  const DEFAULT_NUM_REDUCE_TASKS := 256
  const EXTENDED_NUM_REDUCE_TASKS := DEFAULT_NUM_REDUCE_TASKS * 128

  function NumReduceTasks(oneQueuePerTask: bool): nat {
    if oneQueuePerTask then DEFAULT_NUM_REDUCE_TASKS else EXTENDED_NUM_REDUCE_TASKS
  }

  /** The numbers of reduce tasks, whatever the input. */
  lemma TaskCounts()
    ensures NumReduceTasks(true) == 256 && NumReduceTasks(false) == 32768
  {
  }

  /** env_init's choice of num_merge_threads from the user's arguments. */
  function NumMergeThreads(oneQueuePerTask: bool, argMergeThreads: int, reduceThreads: nat): int {
    var asked := if argMergeThreads > 0 then argMergeThreads else reduceThreads;
    var n := if oneQueuePerTask then asked else reduceThreads / 2;
    var atLeastOne := if n > 1 then n else 1;
    var most := NumReduceTasks(oneQueuePerTask) / 2;
    if atLeastOne < most then atLeastOne else most
  }

  /** How many runs the first round sees. */
  function FirstMergeLen(oneQueuePerTask: bool, reduceThreads: nat): nat {
    if oneQueuePerTask then NumReduceTasks(oneQueuePerTask) else reduceThreads
  }

  /** The clamps give every merge thread at least two runs, whatever the user asked for, and no more threads than need
      be are lost to them: one more would be more than asked for or would leave some thread with less than two runs,
      for at most 256 or 32768 runs. */
  lemma ClampsSuffice(oneQueuePerTask: bool, argMergeThreads: int, reduceThreads: nat)
    requires FirstMergeLen(oneQueuePerTask, reduceThreads) > 1
    ensures 0 < NumMergeThreads(oneQueuePerTask, argMergeThreads, reduceThreads)
    ensures 2 * NumMergeThreads(oneQueuePerTask, argMergeThreads, reduceThreads) <=
            FirstMergeLen(oneQueuePerTask, reduceThreads)
    ensures var asked := if argMergeThreads > 0 then argMergeThreads else reduceThreads;
            forall n: int :: n > NumMergeThreads(oneQueuePerTask, argMergeThreads, reduceThreads) ==>
              if oneQueuePerTask then n > 1 && (n > asked || 2 * n > 256)
              else n > 1 && (2 * n > reduceThreads || 2 * n > 32768)
    ensures FirstMergeLen(oneQueuePerTask, reduceThreads) == if oneQueuePerTask then 256 else reduceThreads
  {
  }
}
