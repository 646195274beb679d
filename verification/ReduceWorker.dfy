/** The loop of reduce_worker_do_next_task, over the arrays of all map threads for one reduce task. */
module ReduceWorker {
  import opened Collections
  import opened KeyValue
  import opened KeyvalsArray
  import opened KeyvalArray
  import opened ReduceTask
  import VI = ValueIterator

  /** The user's reduce: reads all values of a key from the iterator and emits pairs. */
  type Reducer = (Key, seq<Word>) -> seq<Pair>

  // ---------- Specification ----------

  function InsertAll(s: seq<Pair>, ps: seq<Pair>): seq<Pair> {
    if ps == [] then s else InsertPair(InsertAll(s, ps[..|ps| - 1]), ps[|ps| - 1])
  }

  /** Everything reduce emits over a sequence of calls. */
  function Emitted(calls: seq<Call>, reduce: Reducer): seq<Pair> {
    if calls == [] then []
    else Emitted(calls[..|calls| - 1], reduce) + reduce(calls[|calls| - 1].key, calls[|calls| - 1].vals)
  }

  lemma {:induction false} InsertAllMeaning(s: seq<Pair>, ps: seq<Pair>)
    requires SortedPairs(s)
    ensures SortedPairs(InsertAll(s, ps))
    ensures multiset(InsertAll(s, ps)) == multiset(s) + multiset(ps)
  {
    if ps != [] {
      var front, last := ps[..|ps| - 1], ps[|ps| - 1];
      InsertAllMeaning(s, front);
      InsertPairMeaning(InsertAll(s, front), last);
      hide InsertPair, SortedPairs;
      assert ps == front + [last];
    }
  }

  lemma {:induction false} InsertAllConcat(s: seq<Pair>, ps: seq<Pair>, qs: seq<Pair>)
    ensures InsertAll(s, ps + qs) == InsertAll(InsertAll(s, ps), qs)
  {
    hide InsertPair;
    if qs == [] {
      assert ps + qs == ps;
    } else {
      assert (ps + qs)[..|ps + qs| - 1] == ps + qs[..|qs| - 1];
      InsertAllConcat(s, ps, qs[..|qs| - 1]);
    }
  }

  // ---------- Implementation ----------

  /** The arrays and chunks a task's keyvals arrays are made of. */
  datatype Own = Own(arrays: set<array<Keyvals>>, chunks: set<ValChunk>)

  ghost predicate Ready(arrs: seq<KeyvalsArr>, own: Own)
    reads arrs, own.arrays, own.chunks
  {
    && (forall i | 0 <= i < |arrs| :: arrs[i].owned <= own.chunks && arrs[i].arr in own.arrays)
    && (forall i | 0 <= i < |arrs| :: arrs[i].Valid())
    && forall i, j | 0 <= i < j < |arrs| :: arrs[i] != arrs[j]
  }

  /** What each array has from its pos on. */
  ghost predicate Heads(arrs: seq<KeyvalsArr>, vs: Views)
    reads arrs`entries, arrs`pos
  {
    HeadsFrom(arrs, Positions(arrs), vs)
  }

  /** The slot under pos, as the abstract entries describe it. */
  lemma HeadSlot(a: KeyvalsArr, own: Own) returns (l: VI.List)
    requires a.Valid() && a.owned <= own.chunks && a.pos < |a.entries|
    ensures a.pos < a.len <= a.arr.Length && a.arr[a.pos].key == a.entries[a.pos].key
    ensures l.e == a.arr[a.pos] && l.e.len > 0 && l.chunks == a.entries[a.pos].chunks && l.Holds(own.chunks)
  {
    hide Flatten, Capacity, ChainHolds, StrictlySorted;
    var i := a.pos;
    assert a.SlotHolds(i);
    l := VI.List(a.arr[i], a.chains[i], a.entries[i].chunks, a);
    HeadOfChain(l.e.vals, l.chain, l.chunks, a, l.e.key.rank);
    FlattenNonempty(l.chunks);
  }

  lemma HeadOfChain(c: ValChunk?, cs: seq<ValChunk>, chunks: seq<seq<Word>>, home: KeyvalsArr, rank: real)
    requires cs != [] && ChainHolds(c, cs, chunks, home, rank)
    ensures c != null
  {
  }

  lemma FlattenNonempty(chunks: seq<seq<Word>>)
    requires chunks != [] && chunks[0] != []
    ensures Flatten(chunks) != []
  {
  }

  /** Hand the key under pos to the iterator and step over it. */
  method TakeHead(a: KeyvalsArr, itr: VI.Iterator, ghost own: Own)
    requires a.Valid() && a.owned <= own.chunks && a.pos < |a.entries|
    requires itr.Valid() && itr.Readable(own.chunks) && |itr.lists| < itr.maxList
    requires itr.Remaining() == VI.Values(itr.lists) && itr.listArray != a.arr
    modifies a`pos, itr, itr.listArray
    ensures a.Valid() && a.pos == old(a.pos) + 1
    ensures itr.Valid() && itr.Readable(own.chunks) && |itr.lists| == |old(itr.lists)| + 1
    ensures itr.Remaining() == VI.Values(itr.lists)
    ensures VI.Values(itr.lists) == old(VI.Values(itr.lists)) + Flatten(a.entries[old(a.pos)].chunks)
  {
    ghost var l := HeadSlot(a, own);
    hide Flatten, Capacity, ChainHolds, WellFormed, VI.Values, VI.Rest, WellFilled;
    var ret := itr.Add(a.arr[a.pos], l, own.chunks);
    assert ret == 0;
    VI.ValuesAppend(old(itr.lists), l);
    a.pos := a.pos + 1;
  }

  /** The arrays after a pass that consumes `min`. */
  function Target(vs: Views, min: Option<Key>): (r: Views)
    ensures |r| == |vs|
  {
    if min.Some? then Advance(vs, min.value.rank) else vs
  }

  function Taken(vs: Views, n: nat, min: Option<Key>): seq<Word>
    requires n <= |vs|
  {
    if min.Some? then Gather(vs, n, min.value.rank) else []
  }

  /** A strictly sorted array whose first key has been taken does not hold that key again. */
  lemma NoSecondMatch(v: seq<Entry>, rank: real)
    requires StrictlySorted(v) && AtHead(v, rank)
    ensures !AtHead(v[1..], rank) && Drop(v, rank) == v[1..]
  {
  }

  /** Where the inner for loop stands: arrays before ct are done, those after it untouched, and at
      ct the matching key may have been taken already. */
  ghost predicate PassAt(vs: Views, ws: Views, ct: nat, again: bool, min: Option<Key>, got: seq<Word>)
    requires |ws| == |vs| && ct <= |vs|
  {
    && (forall i | 0 <= i < ct :: ws[i] == Target(vs, min)[i])
    && (forall i | ct < i < |vs| :: ws[i] == vs[i])
    && (again ==> ct < |vs| && min.Some? && AtHead(vs[ct], min.value.rank)
                  && ws[ct] == vs[ct][1..] && got == Taken(vs, ct + 1, min))
    && (!again ==> (ct < |vs| ==> ws[ct] == vs[ct]) && got == Taken(vs, ct, min))
  }

  lemma PassEmpty(vs: Views, ws: Views, ct: nat, again: bool, min: Option<Key>, got: seq<Word>)
    requires AllSorted(vs) && |ws| == |vs| && ct < |vs| && PassAt(vs, ws, ct, again, min, got) && ws[ct] == []
    ensures PassAt(vs, ws, ct + 1, false, min, got)
    ensures NextMin(Target(vs, min), ct + 1) == NextMin(Target(vs, min), ct)
  {
    hide Flatten;
    if again { NoSecondMatch(vs[ct], min.value.rank); }
  }

  lemma PassTake(vs: Views, ws: Views, ct: nat, again: bool, min: Key, got: seq<Word>)
    requires AllSorted(vs) && |ws| == |vs| && ct < |vs| && PassAt(vs, ws, ct, again, Some(min), got)
    requires AtHead(ws[ct], min.rank)
    ensures !again && PassAt(vs, ws[ct := ws[ct][1..]], ct, true, Some(min), got + Flatten(ws[ct][0].chunks))
  {
    hide Flatten;
    if again { NoSecondMatch(vs[ct], min.rank); }
  }

  lemma PassOn(vs: Views, ws: Views, ct: nat, again: bool, min: Option<Key>, got: seq<Word>)
    requires AllSorted(vs) && |ws| == |vs| && ct < |vs| && PassAt(vs, ws, ct, again, min, got)
    requires ws[ct] != [] && (min.Some? ==> !AtHead(ws[ct], min.value.rank))
    ensures PassAt(vs, ws, ct + 1, false, min, got)
    ensures var m := NextMin(Target(vs, min), ct);
            NextMin(Target(vs, min), ct + 1) ==
            if m.None? || ws[ct][0].key.rank < m.value.rank then Some(ws[ct][0].key) else m
  {
    hide Flatten;
    if again { NoSecondMatch(vs[ct], min.value.rank); }
  }

  lemma PassDone(vs: Views, ws: Views, again: bool, min: Option<Key>, got: seq<Word>)
    requires |ws| == |vs| && PassAt(vs, ws, |vs|, again, min, got)
    ensures ws == Target(vs, min) && got == Taken(vs, |vs|, min)
  {
  }

  /** What each array has from the given positions on. */
  ghost predicate HeadsFrom(arrs: seq<KeyvalsArr>, poss: seq<nat>, vs: Views)
    reads arrs`entries
  {
    && |vs| == |arrs| == |poss|
    && forall i {:trigger vs[i]} | 0 <= i < |arrs| ::
         poss[i] <= |arrs[i].entries| && vs[i] == arrs[i].entries[poss[i]..]
  }

  lemma StepHeads(arrs: seq<KeyvalsArr>, poss: seq<nat>, ws: Views, ct: nat)
    requires HeadsFrom(arrs, poss, ws) && ct < |arrs| && ws[ct] != []
    ensures HeadsFrom(arrs, poss[ct := poss[ct] + 1], ws[ct := ws[ct][1..]])
  {
    var us, ps := ws[ct := ws[ct][1..]], poss[ct := poss[ct] + 1];
    forall i {:trigger us[i]} | 0 <= i < |arrs|
      ensures ps[i] <= |arrs[i].entries| && us[i] == arrs[i].entries[ps[i]..]
    {
      var w := ws[i];
      if i == ct {
        assert us[i] == w[1..] == arrs[i].entries[poss[i]..][1..];
      }
    }
  }

  lemma HeadAt(arrs: seq<KeyvalsArr>, ws: Views, ct: nat)
    requires Heads(arrs, ws) && ct < |arrs|
    ensures arrs[ct].pos <= |arrs[ct].entries| && ws[ct] == arrs[ct].entries[arrs[ct].pos..]
  {
    var w := ws[ct];
  }

  function Positions(arrs: seq<KeyvalsArr>): (r: seq<nat>)
    reads arrs`pos
    ensures |r| == |arrs| && forall i | 0 <= i < |arrs| :: r[i] == arrs[i].pos
  {
    if arrs == [] then [] else [arrs[0].pos] + Positions(arrs[1..])
  }

  /** The iterator has been given at most n lists and nothing has been read from it. */
  ghost predicate IterState(arrs: seq<KeyvalsArr>, itr: VI.Iterator, n: nat, own: Own)
    reads arrs, own.arrays, own.chunks, itr, itr.listArray
  {
    && itr.listArray !in own.arrays
    && itr.Valid() && itr.Readable(own.chunks) && itr.maxList == |arrs|
    && itr.Remaining() == VI.Values(itr.lists)
    && |itr.lists| <= n
  }

  /** Take the head of array ct, which matches the key being reduced. */
  method TakeMatch(arrs: seq<KeyvalsArr>, itr: VI.Iterator, ct: nat, ghost ws: Views, ghost own: Own)
    requires Ready(arrs, own) && Heads(arrs, ws) && ct < |arrs| && ws[ct] != []
    requires IterState(arrs, itr, ct, own)
    modifies itr, itr.listArray, arrs`pos
    ensures Ready(arrs, own) && Heads(arrs, ws[ct := ws[ct][1..]])
    ensures IterState(arrs, itr, ct + 1, own)
    ensures VI.Values(itr.lists) == old(VI.Values(itr.lists)) + Flatten(ws[ct][0].chunks)
  {
    hide Flatten, ArrHolds, WellFormed, VI.ListsStored, VI.CursorReads, VI.Values, VI.Rest, HeadsFrom, Positions;
    HeadAt(arrs, ws, ct);
    ghost var poss := Positions(arrs);
    StepHeads(arrs, poss, ws, ct);
    TakeHead(arrs[ct], itr, own);
    assert Positions(arrs) == poss[ct := poss[ct] + 1];
  }

  /** The invariant of the inner for loop. */
  ghost predicate PassState(arrs: seq<KeyvalsArr>, itr: VI.Iterator, vs: Views, ws: Views, ct: nat, again: bool,
                            min: Option<Key>, nextMin: Option<Key>, own: Own)
    reads arrs, own.arrays, own.chunks, itr, itr.listArray
  {
    && ct <= |arrs| == |ws| == |vs|
    && Ready(arrs, own) && Heads(arrs, ws)
    && IterState(arrs, itr, if again then ct + 1 else ct, own)
    && (min.None? ==> itr.lists == [])
    && PassAt(vs, ws, ct, again, min, VI.Values(itr.lists))
    && nextMin == NextMin(Target(vs, min), ct)
  }

  /** One iteration of the inner for loop; when a key matches, the same array is looked at again. */
  method PassStep(arrs: seq<KeyvalsArr>, itr: VI.Iterator, min: Option<Key>, nextMin: Option<Key>, ct: nat,
                  ghost vs: Views, ghost ws: Views, ghost again: bool, ghost own: Own)
    returns (nextMin': Option<Key>, ct': nat, ghost ws': Views, ghost again': bool)
    requires ct < |arrs| && AllSorted(vs) && PassState(arrs, itr, vs, ws, ct, again, min, nextMin, own)
    modifies itr, itr.listArray, arrs`pos
    ensures PassState(arrs, itr, vs, ws', ct', again', min, nextMin', own)
    ensures ct' == ct + 1 || (ct' == ct && !again && again')
  {
    hide Flatten, ArrHolds, WellFormed, VI.ListsStored, VI.CursorReads, VI.Values, VI.Rest, AllSorted, PassAt, Target;
    hide Taken, NextMin, HeadsFrom, Positions;
    HeadAt(arrs, ws, ct);
    nextMin', ct', ws', again' := nextMin, ct, ws, again;
    ghost var got, w := VI.Values(itr.lists), ws[ct];
    var a := arrs[ct];
    var head := PeekHead(a);
    if head.None? {
      PassEmpty(vs, ws, ct, again, min, got);
      ct', again' := ct + 1, false;
    } else if min.Some? && KeyCmp(head.value, min.value) == 0 {
      PassTake(vs, ws, ct, again, min.value, got);
      TakeMatch(arrs, itr, ct, ws, own);
      ws', again' := ws[ct := w[1..]], true;
    } else {
      PassOn(vs, ws, ct, again, min, got);
      if nextMin.None? || KeyCmp(head.value, nextMin.value) < 0 {
        nextMin' := head;
      }
      ct', again' := ct + 1, false;
    }
  }

  /** The iterator is empty and as big as the number of map threads. */
  ghost predicate Idle(arrs: seq<KeyvalsArr>, itr: VI.Iterator, own: Own)
    reads itr, itr.listArray, own.chunks
  {
    && itr.Valid() && itr.lists == [] && itr.maxList == |arrs| && itr.Readable(own.chunks)
    && itr.listArray !in own.arrays
  }

  lemma PassStart(arrs: seq<KeyvalsArr>, itr: VI.Iterator, vs: Views, min: Option<Key>, own: Own)
    requires Ready(arrs, own) && Heads(arrs, vs) && Idle(arrs, itr, own)
    ensures PassState(arrs, itr, vs, vs, 0, false, min, None, own)
  {
    assert VI.Values([]) == [];
    assert PassAt(vs, vs, 0, false, min, []);
    hide Ready, Heads, VI.CursorReads, VI.ListsStored, PassAt, VI.Values;
  }

  lemma PassEnd(arrs: seq<KeyvalsArr>, itr: VI.Iterator, vs: Views, ws: Views, again: bool,
                min: Option<Key>, nextMin: Option<Key>, own: Own)
    requires PassState(arrs, itr, vs, ws, |arrs|, again, min, nextMin, own)
    ensures Ready(arrs, own) && Heads(arrs, Target(vs, min)) && nextMin == NextMin(Target(vs, min), |vs|)
    ensures IterState(arrs, itr, |arrs|, own) && VI.Values(itr.lists) == Taken(vs, |vs|, min)
    ensures min.None? ==> Idle(arrs, itr, own)
  {
    hide Ready, Heads, VI.CursorReads, VI.ListsStored, VI.Values;
    PassDone(vs, ws, again, min, VI.Values(itr.lists));
  }

  /** One pass of the do loop over all arrays: hand what matches `min` to the iterator, and find the
      next least key among what remains. */
  method Pass(arrs: seq<KeyvalsArr>, itr: VI.Iterator, min: Option<Key>, ghost vs: Views, ghost own: Own)
    returns (nextMin: Option<Key>)
    requires Ready(arrs, own) && Heads(arrs, vs) && AllSorted(vs) && Idle(arrs, itr, own)
    modifies itr, itr.listArray, arrs`pos
    ensures Ready(arrs, own) && Heads(arrs, Target(vs, min)) && nextMin == NextMin(Target(vs, min), |vs|)
    ensures IterState(arrs, itr, |arrs|, own) && VI.Values(itr.lists) == Taken(vs, |vs|, min)
    ensures min.None? ==> Idle(arrs, itr, own)
  {
    nextMin := None;
    var ct := 0;
    ghost var ws, again := vs, false;
    PassStart(arrs, itr, vs, min, own);
    hide Ready, Heads, Idle, IterState, AllSorted, PassAt, Target, Taken, NextMin, VI.Values, PassState;
    while ct < |arrs|
      invariant ct <= |arrs| && PassState(arrs, itr, vs, ws, ct, again, min, nextMin, own)
      decreases |arrs| - ct, !again
    {
      nextMin, ct, ws, again := PassStep(arrs, itr, min, nextMin, ct, vs, ws, again, own);
    }
    PassEnd(arrs, itr, vs, ws, again, min, nextMin, own);
  }

  /** The next key of an array, if it is not completely searched. */
  method PeekHead(a: KeyvalsArr) returns (head: Option<Key>)
    requires a.Valid() && a.pos <= |a.entries|
    ensures head == if a.pos >= |a.entries| then None else Some(a.entries[a.pos].key)
  {
    if a.pos >= a.len {
      return None;
    }
    var l := HeadSlot(a, Own({a.arr}, a.owned));
    return Some(a.arr[a.pos].key);
  }

  /** Read the iterator to its end, as a reduce function does. */
  method Drain(itr: VI.Iterator, ghost own: Own) returns (vals: seq<Word>)
    requires itr.Valid() && itr.lists != [] && itr.Readable(own.chunks) && itr.Remaining() == VI.Values(itr.lists)
    modifies itr
    ensures itr.Valid() && vals == VI.Values(old(itr.lists))
  {
    hide VI.ListsStored, VI.CursorReads, VI.Values, VI.Rest;
    vals := [];
    ghost var all := itr.Remaining();
    var more, addr := itr.Next(own.chunks);
    while more
      invariant itr.Valid() && itr.lists == old(itr.lists) && itr.lists != [] && itr.Readable(own.chunks)
      invariant vals + (if more then [addr] else []) + itr.Remaining() == all
      invariant !more ==> itr.Remaining() == []
      decreases more, |itr.Remaining()|
    {
      vals := vals + [addr];
      more, addr := itr.Next(own.chunks);
    }
  }

  /** emit, once per pair: insert it into this thread's output. */
  method Emit(out: KeyvalArr, ps: seq<Pair>)
    requires out.Valid() && SortedPairs(out.Contents())
    modifies out, out.arr
    ensures out.Valid() && (out.arr == old(out.arr) || fresh(out.arr)) && out.pos == old(out.pos)
    ensures out.Contents() == InsertAll(old(out.Contents()), ps) && SortedPairs(out.Contents())
  {
    hide SortedPairs, InsertPair;
    ghost var before := out.Contents();
    for i := 0 to |ps|
      invariant out.Valid() && (out.arr == old(out.arr) || fresh(out.arr)) && out.pos == old(out.pos)
      invariant out.Contents() == InsertAll(before, ps[..i]) && SortedPairs(out.Contents())
    {
      InsertPairMeaning(out.Contents(), ps[i]);
      assert ps[..i + 1][..i] == ps[..i];
      out.Insert(ps[i].key, ps[i].val, false);
    }
    assert ps[..|ps|] == ps;
  }

  lemma {:induction false} GatherHolds(vs: Views, n: nat, rank: real, i: nat)
    requires i < n <= |vs| && AtHead(vs[i], rank) && Flatten(vs[i][0].chunks) != []
    ensures Gather(vs, n, rank) != []
  {
    hide Flatten;
    if i < n - 1 {
      GatherHolds(vs, n - 1, rank, i);
    }
  }

  /** The iterator is never empty when reduce is called. */
  lemma SomethingTaken(arrs: seq<KeyvalsArr>, vs: Views, own: Own)
    requires Ready(arrs, own) && Heads(arrs, vs) && NextMin(vs, |vs|).Some?
    ensures Gather(vs, |vs|, NextMin(vs, |vs|).value.rank) != []
  {
    var i := NextMinIsLeast(vs, |vs|);
    hide Flatten, ArrHolds, WellFormed, NextMin;
    HeadAt(arrs, vs, i);
    var l := HeadSlot(arrs[i], own);
    GatherHolds(vs, |vs|, vs[i][0].key.rank, i);
  }

  lemma NothingEmitted(s: seq<Pair>, reduce: Reducer)
    ensures InsertAll(s, Emitted([], reduce)) == s
  {
  }

  function NothingLeft(n: nat): (vs: Views)
    ensures |vs| == n && forall i | 0 <= i < n :: vs[i] == []
  {
    seq(n, _ => [])
  }

  /** Everything the do loop relies on between two keys. */
  ghost predicate Between(arrs: seq<KeyvalsArr>, itr: VI.Iterator, out: KeyvalArr, vs: Views, own: Own)
    reads arrs, own.arrays, own.chunks, itr, itr.listArray, out, out.arr
  {
    && Ready(arrs, own) && Heads(arrs, vs) && AllSorted(vs)
    && Idle(arrs, itr, own)
    && out.Valid() && SortedPairs(out.Contents())
  }

  /** "See if there are any elements left." */
  method Exhausted(arrs: seq<KeyvalsArr>, ghost itr: VI.Iterator, ghost out: KeyvalArr, ghost vs: Views, ghost own: Own)
    returns (done: bool)
    requires Between(arrs, itr, out, vs, own)
    ensures if done then vs == NothingLeft(|arrs|) && ReduceCalls(vs) == [] else NextMin(vs, |vs|).Some?
  {
    hide HeadsFrom, Positions, ArrHolds, WellFormed, Idle, SortedPairs, AllSorted;
    HeadsLength(arrs, vs);
    var ct := 0;
    while ct < |arrs| && arrs[ct].pos >= arrs[ct].len
      invariant ct <= |arrs| && forall i | 0 <= i < ct :: vs[i] == []
    {
      HeadAt(arrs, vs, ct);
      ct := ct + 1;
    }
    done := ct == |arrs|;
    if !done {
      HeadAt(arrs, vs, ct);
    }
    NoCalls(vs);
    var i := NextMinIsLeast(vs, |vs|);
  }

  /** reduce_worker_do_next_task, for the arrays `intermediate_vals[..][task]`: reduce is called
      exactly as ReduceCalls says, and what it emits is inserted into this thread's output. */
  method DoTask(arrs: seq<KeyvalsArr>, itr: VI.Iterator, out: KeyvalArr, reduce: Reducer,
                ghost start: Views, ghost own: Own) returns (ghost calls: seq<Call>)
    requires Between(arrs, itr, out, start, own)
    modifies itr, itr.listArray, out, out.arr, arrs`pos
    ensures calls == ReduceCalls(start)
    ensures Between(arrs, itr, out, NothingLeft(|arrs|), own) && out.Valid()
    ensures (out.arr == old(out.arr) || fresh(out.arr)) && out.pos == old(out.pos)
    ensures out.Contents() == InsertAll(old(out.Contents()), Emitted(calls, reduce))
  {
    hide ReduceCalls, Ready, Heads, AllSorted, Idle, SortedPairs, Total, NextMin, InsertAll, Emitted, NothingLeft;
    NothingEmitted(out.Contents(), reduce);
    ghost var before, all := out.Contents(), ReduceCalls(start);
    var min := None;
    ghost var vs := start;
    calls := [];
    while true
      invariant Between(arrs, itr, out, vs, own) && out.Valid()
      invariant (out.arr == old(out.arr) || fresh(out.arr)) && out.pos == old(out.pos)
      invariant min.Some? ==> min == NextMin(vs, |vs|)
      invariant calls + ReduceCalls(vs) == all
      invariant out.Contents() == InsertAll(before, Emitted(calls, reduce))
      decreases Total(vs), min.None?
    {
      min, vs, calls := NextKey(arrs, itr, out, reduce, min, vs, calls, own, before);
      var done := Exhausted(arrs, itr, out, vs, own);
      if done {
        break;
      }
    }
  }

  lemma HeadsLength(arrs: seq<KeyvalsArr>, vs: Views)
    requires Heads(arrs, vs)
    ensures |vs| == |arrs|
  {
  }

  /** The body of the do loop: a pass, and the call of reduce for the key the pass collected. */
  method NextKey(arrs: seq<KeyvalsArr>, itr: VI.Iterator, out: KeyvalArr, reduce: Reducer, min: Option<Key>,
                 ghost vs: Views, ghost calls: seq<Call>, ghost own: Own, ghost before: seq<Pair>)
    returns (min': Option<Key>, ghost vs': Views, ghost calls': seq<Call>)
    requires Between(arrs, itr, out, vs, own)
    requires min.Some? ==> min == NextMin(vs, |vs|)
    requires out.Contents() == InsertAll(before, Emitted(calls, reduce))
    modifies itr, itr.listArray, out, out.arr, arrs`pos
    ensures Between(arrs, itr, out, vs', own) && out.Valid()
    ensures (out.arr == old(out.arr) || fresh(out.arr)) && out.pos == old(out.pos)
    ensures min' == NextMin(vs', |vs'|)
    ensures calls' + ReduceCalls(vs') == calls + ReduceCalls(vs)
    ensures out.Contents() == InsertAll(before, Emitted(calls', reduce))
    ensures if min.Some? then Total(vs') < Total(vs) else vs' == vs
  {
    hide ReduceCalls, Ready, Heads, AllSorted, SortedPairs, Total, NextMin, Gather, Advance, Idle, IterState, InsertAll;
    hide Emitted;
    vs', calls' := Target(vs, min), calls;
    if min.Some? {
      CallsFirst(arrs, vs, own);
    }
    min' := Pass(arrs, itr, min, vs, own);
    if min.Some? {
      calls' := calls + [Call(min.value, Gather(vs, |vs|, min.value.rank))];
      Collected(arrs, itr, own);
      ReduceOne(itr, out, reduce, min.value, calls, own, before);
      IdleAgain(arrs, itr, own);
    }
  }

  /** What reducing the least key does to the calls still to be made. */
  lemma CallsFirst(arrs: seq<KeyvalsArr>, vs: Views, own: Own)
    requires Ready(arrs, own) && Heads(arrs, vs) && AllSorted(vs) && NextMin(vs, |vs|).Some?
    ensures var key := NextMin(vs, |vs|).value;
            && Gather(vs, |vs|, key.rank) != []
            && ReduceCalls(vs) == [Call(key, Gather(vs, |vs|, key.rank))] + ReduceCalls(Advance(vs, key.rank))
            && Total(Advance(vs, key.rank)) < Total(vs)
            && AllSorted(Advance(vs, key.rank))
  {
    SomethingTaken(arrs, vs, own);
    hide Ready, Heads;
    AdvanceFalls(vs);
    var i := NextMinIsLeast(vs, |vs|);
    AdvanceMeaning(vs, NextMin(vs, |vs|).value.rank);
  }

  /** Call reduce on what the iterator holds, and reset the iterator. */
  method ReduceOne(itr: VI.Iterator, out: KeyvalArr, reduce: Reducer, key: Key,
                   ghost calls: seq<Call>, ghost own: Own, ghost before: seq<Pair>)
    requires itr.Valid() && itr.lists != [] && itr.Readable(own.chunks) && itr.Remaining() == VI.Values(itr.lists)
    requires out.Valid() && SortedPairs(out.Contents())
    requires out.Contents() == InsertAll(before, Emitted(calls, reduce))
    modifies itr, out, out.arr
    ensures itr.Valid() && itr.lists == []
    ensures out.Valid() && SortedPairs(out.Contents())
    ensures (out.arr == old(out.arr) || fresh(out.arr)) && out.pos == old(out.pos)
    ensures out.Contents() == InsertAll(before, Emitted(calls + [Call(key, VI.Values(old(itr.lists)))], reduce))
  {
    hide SortedPairs, VI.ListsStored, VI.CursorReads, VI.Values, VI.Rest, InsertAll, Emitted;
    var vals := Drain(itr, own);
    EmitCall(out, reduce, key, vals, calls, before);
    itr.Reset();
  }

  method EmitCall(out: KeyvalArr, reduce: Reducer, key: Key, vals: seq<Word>, ghost calls: seq<Call>,
                  ghost before: seq<Pair>)
    requires out.Valid() && SortedPairs(out.Contents())
    requires out.Contents() == InsertAll(before, Emitted(calls, reduce))
    modifies out, out.arr
    ensures out.Valid() && SortedPairs(out.Contents())
    ensures (out.arr == old(out.arr) || fresh(out.arr)) && out.pos == old(out.pos)
    ensures out.Contents() == InsertAll(before, Emitted(calls + [Call(key, vals)], reduce))
  {
    InsertAllConcat(before, Emitted(calls, reduce), reduce(key, vals));
    Emit(out, reduce(key, vals));
  }

  lemma Collected(arrs: seq<KeyvalsArr>, itr: VI.Iterator, own: Own)
    requires IterState(arrs, itr, |arrs|, own) && VI.Values(itr.lists) != []
    ensures itr.Valid() && itr.lists != [] && itr.Readable(own.chunks) && itr.Remaining() == VI.Values(itr.lists)
    ensures itr.maxList == |arrs| && itr.listArray !in own.arrays
  {
    hide VI.CursorReads, VI.ListsStored;
    assert VI.Values([]) == [];
  }

  lemma IdleAgain(arrs: seq<KeyvalsArr>, itr: VI.Iterator, own: Own)
    requires itr.Valid() && itr.lists == []
    requires itr.maxList == |arrs| && itr.listArray !in own.arrays
    ensures Idle(arrs, itr, own)
  {
  }
}
