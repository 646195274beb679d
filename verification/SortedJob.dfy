/** A whole run of Phoenix++ that sorts (run_ingest_chunks of MapReduceSort) with the default reduce, which emits each
    value it is given with its key: the result holds exactly what map has emitted, in order. */
module SortedJob {
  import opened Collections
  import opened HashContainer
  import opened IngestChunks
  import opened IngestJob
  import opened StableSort
  import Combiner
  import MergeSort
  import Rounds

  // The pairs that the default reduce emits for a key.
  function Keyed<K, V>(key: K, vs: seq<V>): (ps: seq<(K, V)>)
    ensures |ps| == |vs|
  {
    if vs == [] then [] else Keyed(key, vs[..|vs| - 1]) + [(key, vs[|vs| - 1])]
  }

  lemma {:induction false} KeyedCount<K(!new), V(!new)>(key: K, vs: seq<V>, k: K, v: V)
    ensures multiset(Keyed(key, vs))[(k, v)] == if k == key then multiset(vs)[v] else 0
  {
    if vs != [] {
      KeyedCount(key, vs[..|vs| - 1], k, v);
      assert vs == vs[..|vs| - 1] + [vs[|vs| - 1]];
    }
  }

  // The default reduce.
  method Reduce<K, V(0)>(key: K, values: Combiner.BufferCombined<V>, out: seq<(K, V)>) returns (out': seq<(K, V)>)
    requires values.currentList == 0 && values.currentIndex == 0
    modifies values`currentList, values`currentIndex
    ensures out' == out + Keyed(key, Combiner.Served(values.items, 0, 0))
  {
    hide Combiner.Served, Keyed;
    KeyedNone<K, V>(key);
    out' := out;
    ghost var done, left := [], Combiner.Served(values.items, 0, 0);
    var ok, val := values.Next();
    while ok
      invariant out' == out + Keyed(key, done) && done + left == Combiner.Served(values.items, 0, 0)
      invariant if ok then left == [val] + Combiner.Served(values.items, values.currentList, values.currentIndex)
                else left == []
      decreases |left| + if ok then 1 else 0
    {
      KeyedPush(key, done, val);
      out' := out' + [(key, val)];
      done, left := done + [val], left[1..];
      ok, val := values.Next();
    }
    assert done + left == done;
  }

  lemma KeyedNone<K, V>(key: K)
    ensures Keyed<K, V>(key, []) == []
  {
  }

  lemma KeyedPush<K, V>(key: K, vs: seq<V>, v: V)
    ensures Keyed(key, vs + [v]) == Keyed(key, vs) + [(key, v)]
  {
    assert (vs + [v])[..|vs|] == vs;
  }

  // What the values of a partition are, key by key.
  ghost predicate Holds<K(!new), V(!new)>(ps: seq<(K, V)>, part: map<K, seq<seq<V>>>, left: set<K>) {
    forall k, v :: multiset(ps)[(k, v)] == if k in left then 0 else multiset(ValuesFor(part, k))[v]
  }

  lemma HoldsOneMore<K(!new), V(!new)>(ps: seq<(K, V)>, part: map<K, seq<seq<V>>>, left: set<K>, key: K)
    requires Holds(ps, part, left) && key in left
    ensures Holds(ps + Keyed(key, ValuesFor(part, key)), part, left - {key})
  {
    hide Keyed, ValuesFor;
    forall k, v
      ensures multiset(ps + Keyed(key, ValuesFor(part, key)))[(k, v)] ==
              if k in left - {key} then 0 else multiset(ValuesFor(part, k))[v]
    {
      KeyedCount(key, ValuesFor(part, key), k, v);
    }
  }

  // Reading serves each key all its values, and each key has one.
  ghost predicate AllRead<K(!new), V>(part: map<K, seq<seq<V>>>) {
    forall k :: k in part ==> part[k] != [] && Combiner.Served(part[k], 0, 0) == ValuesFor(part, k)
  }

  // One turn of the loop over the keys of a partition.
  method ReduceKey<K(==, !new), V(0, !new)>(part: map<K, seq<seq<V>>>, key: K, out: seq<(K, V)>)
    returns (out': seq<(K, V)>)
    requires AllRead(part) && key in part
    ensures out' == out + Keyed(key, ValuesFor(part, key))
  {
    assert part[key] != [] && Combiner.Served(part[key], 0, 0) == ValuesFor(part, key);
    hide AllRead, Keyed, Combiner.Served, ValuesFor;
    var values := new Combiner.BufferCombined<V>();
    values.items := part[key];
    out' := out;
    if |values.items| > 0 {
      out' := Reduce(key, values, out);
    }
  }

  // A reduce task: the keys of a partition in any order.
  method ReducePartition<K(==, !new), V(0, !new)>(part: map<K, seq<seq<V>>>, out: seq<(K, V)>)
    returns (out': seq<(K, V)>, ghost added: seq<(K, V)>)
    requires AllRead(part)
    ensures out' == out + added && Holds(added, part, {})
  {
    out', added := out, [];
    var left := part.Keys;
    NothingHeld(part);
    hide Holds, AllRead, Keyed, ValuesFor;
    while left != {}
      invariant left <= part.Keys && out' == out + added && Holds(added, part, left)
      decreases |left|
    {
      var key :| key in left;
      HoldsOneMore(added, part, left, key);
      out' := ReduceKey(part, key, out');
      added := added + Keyed(key, ValuesFor(part, key));
      left := left - {key};
    }
  }

  lemma NothingHeld<K(!new), V(!new)>(part: map<K, seq<seq<V>>>)
    ensures Holds([], part, part.Keys)
  {
  }

  // What the threads have emitted when the partitions `pending` are still to be reduced.
  ghost predicate Reduced<K(!new), V(!new)>(finals: seq<seq<(K, V)>>, kh: K -> nat, threads: nat, em: multiset<(K, V)>,
                                            pending: set<nat>)
    requires threads > 0
  {
    forall k, v :: multiset(Flatten(finals))[(k, v)] == if PartOf(kh, threads, k) in pending then 0 else em[(k, v)]
  }

  // The partitions of a job that has served everything.
  ghost predicate Parted<K(!new), V(!new)>(parts: seq<map<K, seq<seq<V>>>>, kh: K -> nat, em: multiset<(K, V)>) {
    && parts != []
    && (forall k :: Serves(parts[PartOf(kh, |parts|, k)], em, k))
    && forall p, k {:trigger k in parts[p]} :: 0 <= p < |parts| && k in parts[p] ==> p == PartOf(kh, |parts|, k)
  }

  lemma PartRead<K(!new), V(!new)>(parts: seq<map<K, seq<seq<V>>>>, kh: K -> nat, em: multiset<(K, V)>, p: nat)
    requires Parted(parts, kh, em) && p < |parts|
    ensures AllRead(parts[p])
  {
    forall k | k in parts[p]
      ensures parts[p][k] != [] && Combiner.Served(parts[p][k], 0, 0) == ValuesFor(parts[p], k)
    {
      assert Serves(parts[PartOf(kh, |parts|, k)], em, k);
    }
  }

  lemma PartReduced<K(!new), V(!new)>(parts: seq<map<K, seq<seq<V>>>>, kh: K -> nat, em: multiset<(K, V)>, p: nat,
                                      finals: seq<seq<(K, V)>>, t: nat, added: seq<(K, V)>, pending: set<nat>)
    requires Parted(parts, kh, em) && p < |parts| && p in pending && t < |finals|
    requires Reduced(finals, kh, |parts|, em, pending) && Holds(added, parts[p], {})
    ensures Reduced(finals[t := finals[t] + added], kh, |parts|, em, pending - {p})
  {
    var finals' := finals[t := finals[t] + added];
    FlattenGrows(finals, finals', t, added);
    forall k, v
      ensures multiset(Flatten(finals'))[(k, v)] ==
              if PartOf(kh, |parts|, k) in pending - {p} then 0 else em[(k, v)]
    {
      assert multiset(added)[(k, v)] == multiset(ValuesFor(parts[p], k))[v];
      assert Serves(parts[PartOf(kh, |parts|, k)], em, k);
      hide PartOf, Serves, Flatten;
    }
  }

  // run_reduce with the default reduce: the partitions in any order, each on any thread.
  method ReduceAll<K(==, !new), V(0, !new)>(parts: seq<map<K, seq<seq<V>>>>, threads: nat, ghost kh: K -> nat,
                                            ghost em: multiset<(K, V)>)
    returns (finals: seq<seq<(K, V)>>)
    requires threads > 0 && Parted(parts, kh, em)
    ensures |finals| == threads && multiset(Flatten(finals)) == em
  {
    finals := seq(threads, _ => []);
    var pending: set<nat> := Below(|parts|);
    NothingReduced(finals, kh, |parts|, em);
    hide Parted, Reduced, Holds, AllRead, PartOf, Flatten;
    while pending != {}
      invariant |finals| == threads && Reduced(finals, kh, |parts|, em, pending) && pending <= Below(|parts|)
      decreases |pending|
    {
      var p :| p in pending;
      var thread: nat :| thread < threads;
      PartRead(parts, kh, em, p);
      ghost var added;
      var out;
      out, added := ReducePartition(parts[p], finals[thread]);
      PartReduced(parts, kh, em, p, finals, thread, added, pending);
      finals, pending := finals[thread := out], pending - {p};
    }
    AllReduced(finals, kh, |parts|, em);
  }

  lemma NothingReduced<K(!new), V(!new)>(finals: seq<seq<(K, V)>>, kh: K -> nat, threads: nat, em: multiset<(K, V)>)
    requires threads > 0 && forall t :: 0 <= t < |finals| ==> finals[t] == []
    ensures Reduced(finals, kh, threads, em, Below(threads))
  {
    FlattenEmpty(finals);
  }

  lemma AllReduced<K(!new), V(!new)>(finals: seq<seq<(K, V)>>, kh: K -> nat, threads: nat, em: multiset<(K, V)>)
    requires threads > 0 && Reduced(finals, kh, threads, em, {})
    ensures multiset(Flatten(finals)) == em
  {
    SameCounts(multiset(Flatten(finals)), em);
  }

  // The rounds of a sorting job: those of the job without sorting, which end with one as wide as there are threads, and
  // those of run_merge.
  lemma SortingShrinks(widths: seq<nat>, threads: nat)
    requires threads > 0 && Rounds.Rising(0, widths) && widths != [] && widths[|widths| - 1] == threads
    ensures Rounds.Rising(0, widths + MergeSort.SortWidths(threads)) <==> threads == 1
  {
    Rounds.RisingOn(0, widths, MergeSort.SortWidths(threads));
    Rounds.LastWidthIs(0, widths);
    var rest := MergeSort.RoundWidths(threads, threads);
    assert MergeSort.SortWidths(threads)[1..] == rest;
    if threads > 1 { assert rest[0] == MergeSort.Halved(threads) < threads; }
  }

  lemma {:induction false} RoundWidthsFit(queues: nat, threads: nat)
    ensures forall w :: w in MergeSort.RoundWidths(queues, threads) ==> w <= threads
    decreases queues
  {
    if queues > 1 { RoundWidthsFit(MergeSort.Halved(queues), threads); }
  }

  // run_ingest_chunks: it fails exactly if a chunk cannot be read. Otherwise the result is sorted and holds, pair for
  // pair and as often, what the map function has emitted for all records of the file, if the first chunk holds a
  // record; if not, it is empty. Each round is taken to end with its work done; the pool sees to that, whatever the
  // interleaving, exactly if `widths` does not shrink (`Rounds.BarrierFor`), and so for one thread only.
  method Run<D, K(==, !new), V(0, !new)>(prog: Program<D, K, V>,
                                         kh: K -> nat, blankKey: K, less: ((K, V), (K, V)) -> bool,
                                         threads: nat, file: seq<Byte>, ingestBytes: nat, ghost keys: set<K>)
    returns (ok: bool, result: seq<(K, V)>, ghost widths: seq<nat>)
    requires threads > 0 && LineBased(prog) && KeysAmong(prog, prog.records(file), keys) && StrictWeak(less)
    ensures ok <==> Readable(file, ingestBytes, 0)
    ensures ok ==> ChunkEnd(file, ingestBytes, 0) <= |file|
    ensures ok ==> Ascending(less, result) && multiset(result) == Mapped(prog, file, ingestBytes)
    ensures ok ==> forall w :: w in widths ==> w <= threads
    ensures ok ==> (Rounds.Rising(0, widths) <==> threads == 1)
  {
    hide KeysAmong, LineBased, Readable, ChunkEnd, Mapped, StrictWeak, Ascending, Sort, Rounds.Rising, Flatten;
    hide MergeSort.RoundWidths, Serves;
    result := [];
    var parts;
    ok, parts, widths := Job(prog, kh, blankKey, threads, file, ingestBytes, keys);
    if !ok { return; }
    var outs := ReduceAll(parts, threads, kh, Mapped(prog, file, ingestBytes));
    var finals := new seq<(K, V)>[threads](i requires 0 <= i < threads => outs[i]);
    assert finals[..] == outs;
    ghost var more;
    finals, more := MergeSort.RunMerge(less, finals);
    SortMeaning(less, Flatten(outs));
    SortingShrinks(widths, threads);
    RoundWidthsFit(threads, threads);
    widths := widths + more;
    result := finals[0];
  }
}
