/** merge_results, merge_worker and the loop of merge, over arrays in memory. */
module MergeWorker {
  import opened Collections
  import opened KeyValue
  import opened KeyvalArray
  import opened MergePhase

  ghost predicate RunIs(v: KeyvalArr, r: seq<Pair>, bufs: set<array<Pair>>)
    reads v, bufs
  {
    v.Valid() && v.arr in bufs && r == v.arr[v.pos..v.len]
  }

  /** What each run has from its pos on. */
  ghost predicate RunsAt(vals: seq<KeyvalArr>, rs: Runs, bufs: set<array<Pair>>)
    reads vals, bufs
  {
    && |rs| == |vals|
    && (forall i {:trigger RunIs(vals[i], rs[i], bufs)} | 0 <= i < |vals| :: RunIs(vals[i], rs[i], bufs))
    && forall i, j | 0 <= i < j < |vals| :: vals[i] != vals[j]
  }

  lemma RunAt(vals: seq<KeyvalArr>, rs: Runs, bufs: set<array<Pair>>, i: nat)
    requires RunsAt(vals, rs, bufs) && i < |vals|
    ensures |rs| == |vals| && vals[i].Valid() && rs[i] == vals[i].arr[vals[i].pos..vals[i].len]
  {
    assert RunIs(vals[i], rs[i], bufs);
  }

  lemma MinRunStep(rs: Runs, n: nat)
    requires n < |rs|
    ensures MinRun(rs, 0) == -1
    ensures var m := MinRun(rs, n);
            MinRun(rs, n + 1) == if rs[n] == [] || (m != -1 && rs[m][0].key.rank <= rs[n][0].key.rank) then m else n
  {
  }

  /** The search for the run with the least head, skipping exhausted runs. */
  method FindMin(vals: seq<KeyvalArr>, ghost rs: Runs, ghost bufs: set<array<Pair>>) returns (minIdx: nat)
    requires RunsAt(vals, rs, bufs)
    ensures if minIdx < |vals| then MinRun(rs, |rs|) == minIdx else minIdx == |vals| && MinRun(rs, |rs|) == -1
    ensures |rs| == |vals|
  {
    RunsLength(vals, rs, bufs);
    hide RunsAt, MinRun;
    var i := 0;
    if |vals| > 0 {
      MinRunStep(rs, 0);
    } else {
      return 0;
    }
    while i < |vals|
      invariant i <= |vals| == |rs| && MinRun(rs, i) == -1
    {
      RunAt(vals, rs, bufs, i);
      MinRunStep(rs, i);
      if vals[i].pos < vals[i].len {
        break;
      }
      i := i + 1;
    }
    if i == |vals| {
      return i;
    }
    RunAt(vals, rs, bufs, i);
    minIdx := i;
    var minKeyval := vals[i].arr[vals[i].pos];
    i := i + 1;
    while i < |vals|
      invariant minIdx < i <= |vals| == |rs| && MinRun(rs, i) == minIdx
      invariant rs[minIdx] != [] && rs[minIdx][0] == minKeyval
    {
      RunAt(vals, rs, bufs, i);
      MinRunStep(rs, i);
      if vals[i].pos < vals[i].len {
        if KeyCmp(minKeyval.key, vals[i].arr[vals[i].pos].key) > 0 {
          minIdx := i;
          minKeyval := vals[i].arr[vals[i].pos];
        }
      }
      i := i + 1;
    }
  }

  lemma RunsLength(vals: seq<KeyvalArr>, rs: Runs, bufs: set<array<Pair>>)
    requires RunsAt(vals, rs, bufs)
    ensures |rs| == |vals|
  {
  }

  /** Step over the head of one run. */
  method Take(vals: seq<KeyvalArr>, i: nat, ghost rs: Runs, ghost bufs: set<array<Pair>>) returns (p: Pair)
    requires RunsAt(vals, rs, bufs) && i < |rs| && rs[i] != []
    modifies vals`pos
    ensures p == rs[i][0] && RunsAt(vals, Pop(rs, i), bufs)
  {
    RunAt(vals, rs, bufs, i);
    p := vals[i].arr[vals[i].pos];
    vals[i].pos := vals[i].pos + 1;
    ghost var ps := Pop(rs, i);
    forall j | 0 <= j < |vals| ensures RunIs(vals[j], ps[j], bufs) {
      assert old(RunIs(vals[j], rs[j], bufs));
      if j == i {
        assert ps[j] == rs[j][1..];
      }
    }
  }

  lemma {:induction false} TotalUpTo(rs: Runs, n: nat)
    requires n < |rs|
    ensures Total(rs[..n + 1]) == Total(rs[..n]) + |rs[n]|
  {
    if n == 0 {
      assert rs[..1][1..] == [] && rs[..0] == [];
    } else {
      assert rs[..n + 1][1..] == rs[1..][..n] && rs[..n][1..] == rs[1..][..n - 1];
      TotalUpTo(rs[1..], n - 1);
    }
  }

  lemma KMergeStep(rs: Runs, i: nat)
    requires i < |rs| && MinRun(rs, |rs|) == i
    ensures rs[i] != [] && KMerge(rs) == [rs[i][0]] + KMerge(Pop(rs, i))
    ensures Total(Pop(rs, i)) == Total(rs) - 1
  {
    PopTotal(rs, i);
  }

  /** merge_results. */
  method MergeResults(vals: seq<KeyvalArr>, ghost rs: Runs, ghost bufs: set<array<Pair>>) returns (out: KeyvalArr)
    requires RunsAt(vals, rs, bufs) && forall i | 0 <= i < |vals| :: vals[i].pos == 0
    modifies vals`pos
    ensures fresh(out) && out.Valid() && fresh(out.arr) && out.pos == 0
    ensures out.Contents() == KMerge(rs)
  {
    var totalNumKeys := SumOfLengths(vals, rs, bufs);
    hide RunsAt, Total, KMerge, MinRun, Pop;
    var arr := new Pair[totalNumKeys];
    ghost var left := rs;
    var dataIdx := 0;
    while dataIdx < totalNumKeys
      invariant dataIdx <= totalNumKeys && Total(left) == totalNumKeys - dataIdx
      invariant RunsAt(vals, left, bufs) && arr !in bufs
      invariant arr[..dataIdx] + KMerge(left) == KMerge(rs)
    {
      left := MergeOne(vals, arr, dataIdx, left, bufs);
      dataIdx := dataIdx + 1;
    }
    NoneLeft(left);
    assert arr[..] == arr[..totalNumKeys];
    out := new KeyvalArr.Filled(arr);
  }

  /** Move the least remaining pair to the output. */
  method MergeOne(vals: seq<KeyvalArr>, arr: array<Pair>, dataIdx: nat, ghost left: Runs, ghost bufs: set<array<Pair>>)
    returns (ghost left': Runs)
    requires RunsAt(vals, left, bufs) && Total(left) > 0 && dataIdx < arr.Length && arr !in bufs
    modifies vals`pos, arr
    ensures RunsAt(vals, left', bufs) && Total(left') == Total(left) - 1
    ensures arr[..dataIdx + 1] + KMerge(left') == old(arr[..dataIdx]) + KMerge(left)
  {
    hide RunsAt, Total, KMerge, MinRun, Pop;
    SomeLeft(left);
    var minIdx := FindMin(vals, left, bufs);
    KMergeStep(left, minIdx);
    var p := Take(vals, minIdx, left, bufs);
    arr[dataIdx] := p;
    left' := Pop(left, minIdx);
    assert arr[..dataIdx + 1] == old(arr[..dataIdx]) + [p];
  }

  lemma SomeLeft(rs: Runs)
    ensures Total(rs) > 0 ==> MinRun(rs, |rs|) != -1
  {
    MinRunIsLeast(rs, |rs|);
    if MinRun(rs, |rs|) == -1 {
      AllEmpty(rs);
    }
  }

  lemma {:induction false} NoneLeft(rs: Runs)
    ensures Total(rs) == 0 ==> KMerge(rs) == []
  {
    if MinRun(rs, |rs|) != -1 {
      PopTotal(rs, MinRun(rs, |rs|));
    }
  }

  method SumOfLengths(vals: seq<KeyvalArr>, ghost rs: Runs, ghost bufs: set<array<Pair>>) returns (n: nat)
    requires RunsAt(vals, rs, bufs) && forall i | 0 <= i < |vals| :: vals[i].pos == 0
    ensures n == Total(rs)
  {
    n := 0;
    for i := 0 to |vals|
      invariant |rs| == |vals| && n == Total(rs[..i])
    {
      RunAt(vals, rs, bufs, i);
      TotalUpTo(rs, i);
      n := n + vals[i].len;
    }
    assert rs[..|rs|] == rs;
  }

  // ---------- Rounds ----------

  /** The runs of one merge thread, untouched so far. */
  ghost predicate SliceReady(input: seq<KeyvalArr>, rs: Runs, i: nat, n: nat, bufs: set<array<Pair>>)
    requires 0 < n && 2 * n <= |rs| == |input| && i < n
    reads input, bufs
  {
    var (a, b) := Bounds(i, |rs|, n);
    && RunsAt(input[a..b], Slice(rs, i, n), bufs)
    && forall k | a <= k < b :: input[k].pos == 0
  }

  function Bounds(i: nat, m: nat, n: nat): (r: (nat, nat))
    requires 0 < n && 2 * n <= m && i < n
    ensures r.0 < r.1 <= m
    ensures r.0 == Start(i, m, n) && r.1 == Start(i + 1, m, n)
  {
    StartMonotone(i, i + 1, m, n);
    StartMonotone(i + 1, n, m, n);
    SlicesCover(m, n);
    (Start(i, m, n), Start(i + 1, m, n))
  }

  /** merge_worker for thread i of n. */
  method MergeThread(input: seq<KeyvalArr>, i: nat, n: nat, ghost rs: Runs, ghost bufs: set<array<Pair>>)
    returns (out: KeyvalArr)
    requires 0 < n && 2 * n <= |input| == |rs| && i < n && SliceReady(input, rs, i, n, bufs)
    modifies input[Bounds(i, |input|, n).0..Bounds(i, |input|, n).1]`pos
    ensures fresh(out) && out.Valid() && fresh(out.arr) && out.pos == 0
    ensures out.Contents() == KMerge(Slice(rs, i, n))
  {
    var mergeLen := |input|;
    var length, modlen := mergeLen / n, mergeLen % n;
    if length <= 1 {
      length, modlen := 2, mergeLen % 2;
    }
    var pos := i * length + if i < modlen then i else modlen;
    ghost var bounds := Bounds(i, mergeLen, n);
    SlicesAdjoin(i, mergeLen, n);
    assert pos == bounds.0 && pos + length + (if i < modlen then 1 else 0) == bounds.1;
    hide Slice, RunsAt, Start, KMerge, Bounds;
    if pos < mergeLen {
      var vals := input[pos..pos + length + if i < modlen then 1 else 0];
      assert vals == input[bounds.0..bounds.1];
      out := MergeResults(vals, Slice(rs, i, n), bufs);
    }
  }

  lemma SlicesDisjoint(i: nat, j: nat, m: nat, n: nat)
    requires 0 < n && 2 * n <= m && i < n && j < n && i != j
    ensures Bounds(i, m, n).1 <= Bounds(j, m, n).0 || Bounds(j, m, n).1 <= Bounds(i, m, n).0
  {
    if i < j { StartMonotone(i + 1, j, m, n); } else { StartMonotone(j + 1, i, m, n); }
  }

  /** The slices of the runs that have not been merged yet are untouched. */
  ghost predicate Waiting(input: seq<KeyvalArr>, rs: Runs, pending: set<nat>, n: nat, bufs: set<array<Pair>>)
    requires 0 < n && 2 * n <= |rs| == |input|
    reads input, bufs
  {
    forall i | i in pending :: i < n && SliceReady(input, rs, i, n, bufs)
  }

  /** The outputs written so far, all distinct new arrays. */
  ghost predicate Merged(outs: map<nat, KeyvalArr>, rs: Runs, n: nat, bufs: set<array<Pair>>)
    requires 0 < n && 2 * n <= |rs|
    reads outs.Values, bufs
  {
    && (forall i | i in outs :: i < n && outs[i].pos == 0 && RunIs(outs[i], KMerge(Slice(rs, i, n)), bufs))
    && forall i, j | i in outs && j in outs && i != j :: outs[i] != outs[j]
  }

  /** One thread of a round runs; the slices still waiting are not touched. */
  method RunThread(input: seq<KeyvalArr>, i: nat, n: nat, ghost rs: Runs, ghost bufs: set<array<Pair>>,
                   ghost pending: set<nat>)
    returns (out: KeyvalArr)
    requires 0 < n && 2 * n <= |input| == |rs| && i in pending && Waiting(input, rs, pending, n, bufs)
    requires forall k, l | 0 <= k < l < |input| :: input[k] != input[l]
    modifies input`pos
    ensures fresh(out) && out.Valid() && fresh(out.arr) && out.pos == 0
    ensures out.Contents() == KMerge(Slice(rs, i, n))
    ensures Waiting(input, rs, pending - {i}, n, bufs)
  {
    hide Slice, Start, KMerge, RunsAt;
    out := MergeThread(input, i, n, rs, bufs);
    forall j | j in pending - {i} ensures SliceReady(input, rs, j, n, bufs) {
      SlicesDisjoint(i, j, |input|, n);
      assert old(SliceReady(input, rs, j, n, bufs));
    }
  }

  /** In the middle of a round: the pending threads' runs are untouched, and the others have their outputs. */
  ghost predicate HalfDone(input: seq<KeyvalArr>, outs: map<nat, KeyvalArr>, rs: Runs, pending: set<nat>, n: nat,
                           bufs: set<array<Pair>>, own: set<array<Pair>>)
    requires 0 < n && 2 * n <= |rs| == |input|
    reads input, bufs, outs.Values, own
  {
    && Waiting(input, rs, pending, n, bufs) && Merged(outs, rs, n, own)
    && (forall i | i in pending :: i < n) && forall i: nat | i < n :: i in outs.Keys || i in pending
  }

  /** One more thread of the round, with its entry of merge_vals. */
  method RunOneMore(input: seq<KeyvalArr>, i: nat, n: nat, outs: map<nat, KeyvalArr>, ghost rs: Runs,
                    ghost bufs: set<array<Pair>>, ghost pending: set<nat>, ghost own: set<array<Pair>>)
    returns (outs': map<nat, KeyvalArr>, ghost own': set<array<Pair>>)
    requires 0 < n && 2 * n <= |input| == |rs| && i in pending && HalfDone(input, outs, rs, pending, n, bufs, own)
    requires forall k, l | 0 <= k < l < |input| :: input[k] != input[l]
    requires forall k | 0 <= k < |input| :: input[k] !in outs.Values
    modifies input`pos
    ensures HalfDone(input, outs', rs, pending - {i}, n, bufs, own')
    ensures fresh(outs'.Values - outs.Values) && fresh(own' - own)
  {
    hide Slice, Start, KMerge, RunsAt, SliceReady, Waiting, Merged;
    var out := RunThread(input, i, n, rs, bufs, pending);
    MergedAdd(outs, i, out, rs, n, own);
    ValuesAdd(outs, i, out);
    outs', own' := outs[i := out], own + {out.arr};
  }

  /** The rounds' start_workers: all merge threads run, in any order. */
  method MergeRound(input: seq<KeyvalArr>, n: nat, ghost rs: Runs, ghost bufs: set<array<Pair>>)
    returns (output: seq<KeyvalArr>, ghost bufs': set<array<Pair>>)
    requires 0 < n && 2 * n <= |input| && RunsAt(input, rs, bufs) && forall k | 0 <= k < |input| :: input[k].pos == 0
    modifies input`pos
    ensures |output| == n && RunsAt(output, Round(rs, n), bufs') && forall k | 0 <= k < n :: output[k].pos == 0
    ensures fresh(output) && fresh(bufs')
  {
    RunsLength(input, rs, bufs);
    AllWaiting(input, rs, n, bufs);
    NoneMerged(rs, n);
    assert HalfDone(input, map[], rs, Below(n), n, bufs, {});
    hide Slice, Start, KMerge, RunsAt, SliceReady, Waiting, Merged, Below, Round, HalfDone;
    var pending := Below(n);
    var outs: map<nat, KeyvalArr> := map[];
    bufs' := {};
    while pending != {}
      invariant HalfDone(input, outs, rs, pending, n, bufs, bufs')
      invariant fresh(outs.Values) && fresh(bufs')
      decreases pending
    {
      var i :| i in pending;
      outs, bufs' := RunOneMore(input, i, n, outs, rs, bufs, pending, bufs');
      pending := pending - {i};
    }
    AllMerged(input, outs, rs, n, bufs, bufs');
    output := InOrder(outs, n, rs, bufs');
  }

  lemma AllMerged(input: seq<KeyvalArr>, outs: map<nat, KeyvalArr>, rs: Runs, n: nat, bufs: set<array<Pair>>,
                  own: set<array<Pair>>)
    requires 0 < n && 2 * n <= |rs| == |input| && HalfDone(input, outs, rs, {}, n, bufs, own)
    ensures Merged(outs, rs, n, own) && forall i: nat | i < n :: i in outs.Keys
  {
  }

  lemma NoneMerged(rs: Runs, n: nat)
    requires 0 < n && 2 * n <= |rs|
    ensures Merged(map[], rs, n, {})
  {
  }

  lemma ValuesAdd(outs: map<nat, KeyvalArr>, i: nat, out: KeyvalArr)
    ensures outs[i := out].Values <= outs.Values + {out}
  {
  }

  lemma MergedAdd(outs: map<nat, KeyvalArr>, i: nat, out: KeyvalArr, rs: Runs, n: nat, bufs: set<array<Pair>>)
    requires 0 < n && 2 * n <= |rs| && i < n
    requires Merged(outs, rs, n, bufs) && out !in outs.Values
    requires out.pos == 0 && out.Valid() && out.Contents() == KMerge(Slice(rs, i, n))
    ensures Merged(outs[i := out], rs, n, bufs + {out.arr})
  {
    hide Slice, KMerge;
    assert RunIs(out, KMerge(Slice(rs, i, n)), bufs + {out.arr});
    assert forall j | j in outs :: outs[j] in outs.Values;
    forall j | j in outs && j != i ensures RunIs(outs[j], KMerge(Slice(rs, j, n)), bufs + {out.arr}) {
      assert RunIs(outs[j], KMerge(Slice(rs, j, n)), bufs);
    }
  }

  /** The outputs as the array merge_vals of n entries. */
  method InOrder(outs: map<nat, KeyvalArr>, n: nat, ghost rs: Runs, ghost bufs: set<array<Pair>>)
    returns (output: seq<KeyvalArr>)
    requires 0 < n && 2 * n <= |rs| && Merged(outs, rs, n, bufs)
    requires forall i: nat | i < n :: i in outs.Keys
    ensures |output| == n && RunsAt(output, Round(rs, n), bufs)
    ensures forall i | 0 <= i < n :: output[i].pos == 0 && output[i] in outs.Values
  {
    hide Slice, KMerge, Round;
    output := seq(n, i requires 0 <= i < n && i in outs => outs[i]);
    forall i | 0 <= i < n ensures RunIs(output[i], Round(rs, n)[i], bufs) && output[i] in outs.Values {
      assert RunIs(outs[i], KMerge(Slice(rs, i, n)), bufs);
    }
  }

  lemma AllWaiting(input: seq<KeyvalArr>, rs: Runs, n: nat, bufs: set<array<Pair>>)
    requires 0 < n && 2 * n <= |input| && RunsAt(input, rs, bufs) && forall k | 0 <= k < |input| :: input[k].pos == 0
    ensures |rs| == |input| && Waiting(input, rs, Below(n), n, bufs)
    ensures forall k, l | 0 <= k < l < |input| :: input[k] != input[l]
  {
    hide Start;
    forall i | i in Below(n) ensures SliceReady(input, rs, i, n, bufs) {
      var (a, b) := Bounds(i, |rs|, n);
      forall k | 0 <= k < b - a ensures RunIs(input[a..b][k], Slice(rs, i, n)[k], bufs) {
        assert RunIs(input[a + k], rs[a + k], bufs);
      }
    }
  }

  lemma MergeAllStep(rs: Runs, n: nat)
    requires |rs| > 1 && n > 0 && 2 * n <= |rs|
    ensures MergeAll(rs, n) == MergeAll(Round(rs, n), NextThreads(n))
    ensures MergeWidths(|rs|, n) == [n - 1] + MergeWidths(n, NextThreads(n))
  {
  }

  /** merge: rounds until a single run is left, which becomes the result. */
  method Merge(finalVals: seq<KeyvalArr>, numMergeThreads: nat, ghost rs: Runs, ghost bufs: set<array<Pair>>)
    returns (data: array<Pair>, length: nat, ghost widths: seq<nat>)
    requires |finalVals| > 0 && numMergeThreads > 0 && (|finalVals| > 1 ==> 2 * numMergeThreads <= |finalVals|)
    requires RunsAt(finalVals, rs, bufs) && forall k | 0 <= k < |finalVals| :: finalVals[k].pos == 0
    modifies finalVals`pos
    ensures |rs| == |finalVals| && length <= data.Length && data[..length] == MergeAll(rs, numMergeThreads)
    ensures widths == MergeWidths(|finalVals|, numMergeThreads)
  {
    hide MergeAll, MergeWidths, Round, RunsAt;
    RunsLength(finalVals, rs, bufs);
    var input, n := finalVals, numMergeThreads;
    ghost var runs, own := rs, bufs;
    widths := [];
    while |input| > 1
      invariant |runs| == |input| > 0 && n > 0 && (|input| > 1 ==> 2 * n <= |input|)
      invariant RunsAt(input, runs, own) && forall k | 0 <= k < |input| :: input[k].pos == 0
      invariant MergeAll(runs, n) == MergeAll(rs, numMergeThreads)
      invariant widths + MergeWidths(|input|, n) == MergeWidths(|finalVals|, numMergeThreads)
      invariant input == finalVals || fresh(input)
      decreases |input|
    {
      MergeAllStep(runs, n);
      ghost var next := Round(runs, n);
      input, own := MergeRound(input, n, runs, own);
      runs, widths := next, widths + [n - 1];
      n := n / 2;
      if n == 0 {
        n := 1;
      }
    }
    SingleRun(input[0], input, runs, own, n);
    assert widths + [] == widths;
    data, length := input[0].arr, input[0].len;
  }

  lemma SingleRun(v: KeyvalArr, vals: seq<KeyvalArr>, rs: Runs, bufs: set<array<Pair>>, n: nat)
    requires |vals| == 1 && v == vals[0] && RunsAt(vals, rs, bufs) && v.pos == 0 && n > 0
    ensures |rs| == 1 && v.len <= v.arr.Length && v.arr[..v.len] == MergeAll(rs, n) && MergeWidths(|vals|, n) == []
  {
    assert RunIs(vals[0], rs[0], bufs);
  }
}
