/** One reduce task: walk the sorted arrays of all map threads together, one key at a time. */
module ReduceTask {
  import opened Collections
  import opened KeyValue
  import opened KeyvalsArray
  import opened KeyvalArray
  import VI = ValueIterator

  /** One call of the user's reduce. */
  datatype Call = Call(key: Key, vals: seq<Word>)

  type Views = seq<seq<Entry>>

  // ---------- Specification ----------

  /** The least key at the head of the first n arrays, the earliest array winning ties. */
  function NextMin(vs: Views, n: nat): Option<Key>
    requires n <= |vs|
  {
    if n == 0 then None
    else
      var m := NextMin(vs, n - 1);
      var v := vs[n - 1];
      if v == [] then m
      else if m.None? || v[0].key.rank < m.value.rank then Some(v[0].key)
      else m
  }

  predicate AtHead(v: seq<Entry>, rank: real) {
    v != [] && v[0].key.rank == rank
  }

  /** The values the first n arrays hold at their heads for a key. */
  function Gather(vs: Views, n: nat, rank: real): seq<Word>
    requires n <= |vs|
  {
    if n == 0 then []
    else Gather(vs, n - 1, rank) + if AtHead(vs[n - 1], rank) then Flatten(vs[n - 1][0].chunks) else []
  }

  function Drop(v: seq<Entry>, rank: real): seq<Entry> {
    if AtHead(v, rank) then v[1..] else v
  }

  function Advance(vs: Views, rank: real): (r: Views)
    ensures |r| == |vs| && forall i | 0 <= i < |vs| :: r[i] == Drop(vs[i], rank)
  {
    seq(|vs|, i requires 0 <= i < |vs| => Drop(vs[i], rank))
  }

  function Total(vs: Views): nat {
    if vs == [] then 0 else |vs[0]| + Total(vs[1..])
  }

  lemma {:induction false} TotalFalls(vs: Views, ws: Views, i: nat)
    requires i < |vs| == |ws| && |ws[i]| < |vs[i]|
    requires forall j | 0 <= j < |vs| :: |ws[j]| <= |vs[j]|
    ensures Total(ws) < Total(vs)
  {
    if i == 0 {
      TotalAtMost(vs[1..], ws[1..]);
    } else {
      TotalFalls(vs[1..], ws[1..], i - 1);
    }
  }

  lemma {:induction false} TotalAtMost(vs: Views, ws: Views)
    requires |vs| == |ws| && forall j | 0 <= j < |vs| :: |ws[j]| <= |vs[j]|
    ensures Total(ws) <= Total(vs)
  {
    if vs != [] {
      TotalAtMost(vs[1..], ws[1..]);
    }
  }

  /** NextMin is None exactly when all arrays are exhausted; otherwise it is a head no head is below. */
  lemma {:induction false} NextMinIsLeast(vs: Views, n: nat) returns (i: nat)
    requires n <= |vs|
    ensures NextMin(vs, n).None? <==> forall j | 0 <= j < n :: vs[j] == []
    ensures NextMin(vs, n).Some? ==>
              && i < n && vs[i] != [] && vs[i][0].key == NextMin(vs, n).value
              && forall j | 0 <= j < n && vs[j] != [] :: NextMin(vs, n).value.rank <= vs[j][0].key.rank
  {
    i := 0;
    if n > 0 {
      i := NextMinIsLeast(vs, n - 1);
      if NextMin(vs, n) != NextMin(vs, n - 1) {
        i := n - 1;
      }
    }
  }

  lemma AdvanceFalls(vs: Views)
    requires NextMin(vs, |vs|).Some?
    ensures Total(Advance(vs, NextMin(vs, |vs|).value.rank)) < Total(vs)
  {
    var i := NextMinIsLeast(vs, |vs|);
    TotalFalls(vs, Advance(vs, NextMin(vs, |vs|).value.rank), i);
  }

  /** The calls of reduce a task makes, in order. */
  function ReduceCalls(vs: Views): seq<Call>
    decreases Total(vs)
  {
    match NextMin(vs, |vs|)
    case None => []
    case Some(key) =>
      AdvanceFalls(vs);
      [Call(key, Gather(vs, |vs|, key.rank))] + ReduceCalls(Advance(vs, key.rank))
  }

  // ---------- What the calls amount to ----------

  ghost predicate AllSorted(vs: Views) {
    forall i | 0 <= i < |vs| :: StrictlySorted(vs[i])
  }

  ghost predicate Has(v: seq<Entry>, rank: real) {
    exists j :: 0 <= j < |v| && v[j].key.rank == rank
  }

  ghost predicate Present(vs: Views, rank: real) {
    exists i :: 0 <= i < |vs| && Has(vs[i], rank)
  }

  /** All values of all arrays for one key, array by array. */
  function AllValues(vs: Views, rank: real): seq<Word> {
    if vs == [] then [] else ValuesOf(vs[0], rank) + AllValues(vs[1..], rank)
  }

  lemma {:induction false} ValuesOfAbsent(v: seq<Entry>, rank: real)
    requires forall j | 0 <= j < |v| :: v[j].key.rank != rank
    ensures ValuesOf(v, rank) == []
  {
    if v != [] {
      ValuesOfAbsent(v[1..], rank);
    }
  }

  lemma HeadValues(v: seq<Entry>, rank: real)
    requires StrictlySorted(v) && (v != [] ==> rank <= v[0].key.rank)
    ensures ValuesOf(v, rank) == if AtHead(v, rank) then Flatten(v[0].chunks) else []
  {
    hide Flatten;
    if v != [] {
      ValuesOfAbsent(v[1..], rank);
    }
  }

  /** Entries below the least key do not exist, so that key's values are all at the heads. */
  lemma {:induction false} GatherIsAll(vs: Views, n: nat, rank: real)
    requires n <= |vs| && AllSorted(vs)
    requires forall i | 0 <= i < |vs| && vs[i] != [] :: rank <= vs[i][0].key.rank
    ensures Gather(vs, n, rank) == AllValues(vs[..n], rank)
  {
    if n > 0 {
      hide AllValues, ValuesOf, Flatten;
      GatherIsAll(vs, n - 1, rank);
      HeadValues(vs[n - 1], rank);
      AllValuesAppend(vs[..n - 1], vs[n - 1], rank);
      assert vs[..n] == vs[..n - 1] + [vs[n - 1]];
    }
  }

  lemma {:induction false} AllValuesAppend(vs: Views, v: seq<Entry>, rank: real)
    ensures AllValues(vs + [v], rank) == AllValues(vs, rank) + ValuesOf(v, rank)
  {
    hide ValuesOf;
    if vs == [] {
      assert [v][1..] == [] && vs + [v] == [v];
      assert AllValues([v][1..], rank) == [];
    } else {
      AllValuesAppend(vs[1..], v, rank);
      assert (vs + [v])[1..] == vs[1..] + [v];
    }
  }

  /** Taking one key off the heads leaves every other key's values as they were. */
  lemma {:induction false} AdvanceKeepsOthers(vs: Views, gone: real, rank: real)
    requires rank != gone
    ensures AllValues(Advance(vs, gone), rank) == AllValues(vs, rank)
  {
    if vs != [] {
      AdvanceKeepsOthers(vs[1..], gone, rank);
      assert Advance(vs, gone)[1..] == Advance(vs[1..], gone);
    }
  }

  ghost predicate NoneBelow(vs: Views, rank: real) {
    forall i | 0 <= i < |vs| && vs[i] != [] :: rank <= vs[i][0].key.rank
  }

  lemma DropMeaning(v: seq<Entry>, rank: real, r: real)
    requires StrictlySorted(v) && (v != [] ==> rank <= v[0].key.rank)
    ensures StrictlySorted(Drop(v, rank))
    ensures Has(Drop(v, rank), r) <==> Has(v, r) && r != rank
    ensures Has(v, r) ==> rank <= r
  {
    if Has(v, r) {
      var j :| 0 <= j < |v| && v[j].key.rank == r;
      if AtHead(v, rank) && j > 0 {
        assert v[1..][j - 1].key.rank == r;
      }
    }
  }

  lemma AdvanceMeaning(vs: Views, rank: real)
    requires AllSorted(vs) && NoneBelow(vs, rank)
    ensures AllSorted(Advance(vs, rank))
    ensures forall r :: Present(Advance(vs, rank), r) <==> Present(vs, r) && r != rank
    ensures forall r | Present(vs, r) :: rank <= r
  {
    hide StrictlySorted, Has, Drop;
    forall i | 0 <= i < |vs| ensures StrictlySorted(Advance(vs, rank)[i]) {
      DropMeaning(vs[i], rank, rank);
    }
    forall i, r | 0 <= i < |vs|
      ensures Has(Advance(vs, rank)[i], r) <==> Has(vs[i], r) && r != rank
      ensures Has(vs[i], r) ==> rank <= r
    {
      DropMeaning(vs[i], rank, r);
    }
  }

  /** Splitting the calls into the first one and the rest. */
  lemma CallsUnfold(vs: Views) returns (key: Key, ws: Views)
    requires AllSorted(vs) && ReduceCalls(vs) != []
    ensures ws == Advance(vs, key.rank) && Total(ws) < Total(vs)
    ensures ReduceCalls(vs) == [Call(key, AllValues(vs, key.rank))] + ReduceCalls(ws)
    ensures AllSorted(ws) && NoneBelow(vs, key.rank) && Present(vs, key.rank)
  {
    var i := NextMinIsLeast(vs, |vs|);
    key := NextMin(vs, |vs|).value;
    ws := Advance(vs, key.rank);
    AdvanceFalls(vs);
    AdvanceMeaning(vs, key.rank);
    GatherIsAll(vs, |vs|, key.rank);
    assert vs[..|vs|] == vs;
    assert Has(vs[i], key.rank);
  }

  lemma NoCalls(vs: Views)
    ensures ReduceCalls(vs) == [] <==> forall i | 0 <= i < |vs| :: vs[i] == []
  {
    var i := NextMinIsLeast(vs, |vs|);
  }

  ghost predicate Called(calls: seq<Call>, r: real) {
    exists i :: 0 <= i < |calls| && calls[i].key.rank == r
  }

  lemma CalledCons(c: Call, rest: seq<Call>, r: real)
    ensures Called([c] + rest, r) <==> c.key.rank == r || Called(rest, r)
  {
    var calls := [c] + rest;
    assert calls[0] == c;
    assert forall i | 0 <= i < |rest| :: calls[i + 1] == rest[i];
  }

  /** Reduce is called for each key present in any array, and for no other. */
  lemma {:induction false} CallsCover(vs: Views, r: real)
    requires AllSorted(vs)
    ensures Present(vs, r) <==> Called(ReduceCalls(vs), r)
    decreases Total(vs)
  {
    NoCalls(vs);
    var calls := ReduceCalls(vs);
    if calls != [] {
      var key, ws := CallsUnfold(vs);
      CallsCover(ws, r);
      AdvanceMeaning(vs, key.rank);
      CalledCons(Call(key, AllValues(vs, key.rank)), ReduceCalls(ws), r);
    }
  }

  /** Reduce is called in strictly ascending order of keys, so once for each. */
  lemma {:induction false} CallsAscend(vs: Views)
    requires AllSorted(vs)
    ensures forall i, j | 0 <= i < j < |ReduceCalls(vs)| :: ReduceCalls(vs)[i].key.rank < ReduceCalls(vs)[j].key.rank
    decreases Total(vs)
  {
    hide Advance, AllValues, Total, ReduceCalls, StrictlySorted, AllSorted, Has, Present, NoneBelow;
    var calls := ReduceCalls(vs);
    if calls != [] {
      var key, ws := CallsUnfold(vs);
      CallsAscend(ws);
      var rest := ReduceCalls(ws);
      forall j | 0 <= j < |rest| ensures key.rank < rest[j].key.rank {
        assert Called(rest, rest[j].key.rank);
        CallsCover(ws, rest[j].key.rank);
        AdvanceMeaning(vs, key.rank);
      }
      assert forall i | 0 <= i < |rest| :: calls[i + 1] == rest[i];
    }
  }

  /** Each call gets its key's values from every array. */
  lemma {:induction false} CallsValues(vs: Views, i: nat)
    requires AllSorted(vs) && i < |ReduceCalls(vs)|
    ensures ReduceCalls(vs)[i].vals == AllValues(vs, ReduceCalls(vs)[i].key.rank)
    decreases Total(vs)
  {
    hide Advance, AllValues, Total, ReduceCalls, StrictlySorted, AllSorted, Has, Present, NoneBelow;
    var key, ws := CallsUnfold(vs);
    if i > 0 {
      var c := ReduceCalls(vs)[i];
      assert c == ReduceCalls(ws)[i - 1];
      CallsValues(ws, i - 1);
      assert Called(ReduceCalls(ws), c.key.rank);
      CallsCover(ws, c.key.rank);
      AdvanceMeaning(vs, key.rank);
      AdvanceKeepsOthers(vs, key.rank, c.key.rank);
    }
  }
}
