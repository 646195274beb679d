/** hash_container (container.h:144-229) with buffer combiners: the map threads' tables go into rows by partition and
    thread, and the reduce iterator of a partition joins what its rows hold for each key. */
module HashContainer {
  import opened Collections
  import opened BitMask
  import opened OpenAddressing
  import opened HashTable
  import Combiner

  // ------------------------------------------------------------------ pairs of keys and values

  ghost function PairsOf<K, V>(key: K, vs: seq<V>): multiset<(K, V)> {
    if vs == [] then multiset{} else PairsOf(key, vs[..|vs| - 1]) + multiset{(key, vs[|vs| - 1])}
  }

  // Everything that a sequence of entries holds.
  ghost function Pairs<K, V>(es: seq<(K, seq<V>)>): multiset<(K, V)> {
    if es == [] then multiset{} else Pairs(es[..|es| - 1]) + PairsOf(es[|es| - 1].0, es[|es| - 1].1)
  }

  ghost function RowsPairs<K, V>(rows: seq<seq<(K, seq<V>)>>): multiset<(K, V)> {
    if rows == [] then multiset{} else RowsPairs(rows[..|rows| - 1]) + Pairs(rows[|rows| - 1])
  }

  lemma {:induction false} PairsOfCount<K(!new), V(!new)>(key: K, vs: seq<V>, k: K, v: V)
    ensures PairsOf(key, vs)[(k, v)] == if k == key then multiset(vs)[v] else 0
  {
    if vs != [] {
      PairsOfCount(key, vs[..|vs| - 1], k, v);
      assert vs == vs[..|vs| - 1] + [vs[|vs| - 1]];
    }
  }

  lemma {:induction false} PairsConcat<K, V>(a: seq<(K, seq<V>)>, b: seq<(K, seq<V>)>)
    ensures Pairs(a + b) == Pairs(a) + Pairs(b)
  {
    hide PairsOf;
    if b == [] {
      assert a + b == a;
    } else {
      PairsConcat(a, b[..|b| - 1]);
      assert (a + b)[..|a + b| - 1] == a + b[..|b| - 1];
    }
  }

  lemma PairsPush<K, V>(es: seq<(K, seq<V>)>, e: (K, seq<V>))
    ensures Pairs(es + [e]) == Pairs(es) + PairsOf(e.0, e.1)
  {
    assert (es + [e])[..|es + [e]| - 1] == es;
  }

  lemma {:induction false} RowsPush<K, V>(rows: seq<seq<(K, seq<V>)>>, r: nat, e: (K, seq<V>))
    requires r < |rows|
    ensures RowsPairs(rows[r := rows[r] + [e]]) == RowsPairs(rows) + PairsOf(e.0, e.1)
  {
    hide PairsOf;
    var n := |rows| - 1;
    var rows' := rows[r := rows[r] + [e]];
    if r == n {
      PairsPush(rows[r], e);
      assert rows'[..n] == rows[..n];
    } else {
      RowsPush(rows[..n], r, e);
      assert rows'[..n] == rows[..n][r := rows[..n][r] + [e]];
    }
  }

  lemma {:induction false} RowsConcat<K, V>(a: seq<seq<(K, seq<V>)>>, b: seq<seq<(K, seq<V>)>>)
    ensures RowsPairs(a + b) == RowsPairs(a) + RowsPairs(b)
  {
    hide Pairs;
    if b == [] {
      assert a + b == a;
    } else {
      RowsConcat(a, b[..|b| - 1]);
      assert (a + b)[..|a + b| - 1] == a + b[..|b| - 1];
    }
  }

  // ------------------------------------------------------------------ one map thread

  // The table holds exactly the pairs that its thread has emitted, per key in a list.
  ghost predicate Represents<K(!new), V(!new)>(m: map<K, seq<V>>, em: multiset<(K, V)>) {
    forall k, v :: em[(k, v)] == if k in m then multiset(m[k])[v] else 0
  }

  lemma Emitted<K(!new), V(!new)>(m: map<K, seq<V>>, em: multiset<(K, V)>, key: K, v: V)
    requires Represents(m, em)
    ensures Represents(m[key := (if key in m then m[key] else []) + [v]], em + multiset{(key, v)})
  {
  }

  // emit_intermediate: i[k].add(v).
  method EmitIntermediate<K(==, !new), V(!new)>(i: HashTable<K, seq<V>>, k: K, v: V, ghost em: multiset<(K, V)>)
    requires i.Valid() && i.blank == [] && Represents(i.m, em)
    modifies i, i.table, i.occupied
    ensures i.Valid() && Represents(i.m, em + multiset{(k, v)}) && i.m.Keys == old(i.m.Keys) + {k}
    ensures (fresh(i.table) && fresh(i.occupied)) || (i.table == old(i.table) && i.occupied == old(i.occupied))
  {
    hide Represents, Fits, Power, Count;
    Emitted(i.m, em, k, v);
    ghost var was := i.m;
    var index := i.Index(k);
    i.Assign(k, index, i.table[index].1 + [v]);
    assert i.m == was[k := (if k in was then was[k] else []) + [v]];
  }

  ghost predicate HasKey<K(!new), V>(es: seq<(K, seq<V>)>, k: K) {
    exists a :: 0 <= a < |es| && es[a].0 == k
  }

  lemma HasKeyLast<K(!new), V>(es: seq<(K, seq<V>)>, k: K)
    requires es != []
    ensures HasKey(es, k) <==> HasKey(es[..|es| - 1], k) || es[|es| - 1].0 == k
  {
    var n := |es| - 1;
    assert forall a :: 0 <= a < n ==> es[..n][a] == es[a];
  }

  // No key twice, and every entry is one of m.
  ghost predicate EntriesOf<K(!new), V>(es: seq<(K, seq<V>)>, m: map<K, seq<V>>) {
    && (forall a, b :: 0 <= a < b < |es| ==> es[a].0 != es[b].0)
    && (forall a :: 0 <= a < |es| ==> es[a].0 in m && m[es[a].0] == es[a].1)
  }

  lemma EntriesOfFront<K(!new), V>(es: seq<(K, seq<V>)>, m: map<K, seq<V>>)
    requires EntriesOf(es, m) && es != []
    ensures EntriesOf(es[..|es| - 1], m) && !HasKey(es[..|es| - 1], es[|es| - 1].0)
    ensures es[|es| - 1].0 in m && m[es[|es| - 1].0] == es[|es| - 1].1
  {
  }

  lemma PairsLast<K(!new), V(!new)>(es: seq<(K, seq<V>)>, k: K, v: V)
    requires es != []
    ensures Pairs(es)[(k, v)] ==
            Pairs(es[..|es| - 1])[(k, v)] + if es[|es| - 1].0 == k then multiset(es[|es| - 1].1)[v] else 0
  {
    PairsOfCount(es[|es| - 1].0, es[|es| - 1].1, k, v);
    hide PairsOf;
  }

  lemma {:induction false} EntriesPairs<K(!new), V(!new)>(es: seq<(K, seq<V>)>, m: map<K, seq<V>>, k: K, v: V)
    requires EntriesOf(es, m)
    ensures HasKey(es, k) ==> k in m
    ensures Pairs(es)[(k, v)] == if HasKey(es, k) then multiset(m[k])[v] else 0
  {
    if es == [] {
      NoEntries<K, V>();
    } else {
      hide HasKey, Pairs, EntriesOf;
      EntriesOfFront(es, m);
      EntriesPairs(es[..|es| - 1], m, k, v);
      PairsLast(es, k, v);
      HasKeyLast(es, k);
    }
  }

  lemma TableEntries<K(!new), V(!new)>(cells: seq<Cell<K, seq<V>>>, kh: K -> nat, m: map<K, seq<V>>)
    requires Fits(cells, kh, m)
    ensures EntriesOf(Entries(cells, 0), m)
    ensures forall k :: k in m ==> HasKey(Entries(cells, 0), k)
  {
    IterationYieldsMap(cells, kh, m);
    hide Fits, Entries;
    var es := Entries(cells, 0);
    forall a | 0 <= a < |es|
      ensures es[a].0 in m && m[es[a].0] == es[a].1
    {
      assert es[a] in es;
    }
    forall k | k in m
      ensures HasKey(es, k)
    {
      assert (k, m[k]) in es;
      var a :| 0 <= a < |es| && es[a] == (k, m[k]);
      assert es[a].0 == k;
    }
  }

  // What iterating over a table serves is what was emitted into it.
  lemma TablePairs<K(!new), V(!new)>(cells: seq<Cell<K, seq<V>>>, kh: K -> nat, m: map<K, seq<V>>, em: multiset<(K, V)>)
    requires Fits(cells, kh, m) && Represents(m, em)
    ensures Pairs(Entries(cells, 0)) == em
  {
    TableEntries(cells, kh, m);
    hide Fits, Entries, EntriesOf, HasKey, Pairs;
    var es := Entries(cells, 0);
    forall k, v
      ensures Pairs(es)[(k, v)] == em[(k, v)]
    {
      EntriesPairs(es, m, k, v);
    }
    SameCounts(Pairs(es), em);
  }

  lemma SameCounts<K(!new), V(!new)>(a: multiset<(K, V)>, b: multiset<(K, V)>)
    requires forall k, v :: a[(k, v)] == b[(k, v)]
    ensures a == b
  {
    forall p: (K, V)
      ensures a[p] == b[p]
    {
      assert p == (p.0, p.1);
    }
  }

  // ------------------------------------------------------------------ the rows

  // The row of a partition and a thread.
  function RowOf(inSize: nat, p: nat, i: nat): nat {
    p * inSize + i
  }

  lemma RowExists(inSize: nat, outSize: nat, p: nat, i: nat)
    requires p < outSize && i < inSize
    ensures RowOf(inSize, p, i) < inSize * outSize
  {
    assert inSize * (p + 1) <= inSize * outSize by { MulLe(inSize, p + 1, outSize); }
    assert inSize * (p + 1) == p * inSize + inSize;
  }

  lemma MulLe(x: nat, a: nat, b: nat)
    requires a <= b
    ensures x * a <= x * b
  {
  }

  lemma RowsOrdered(inSize: nat, outSize: nat, p: nat)
    requires p < outSize
    ensures RowOf(inSize, p, 0) <= RowOf(inSize, p, inSize) == RowOf(inSize, p + 1, 0) <= inSize * outSize
  {
    assert inSize * (p + 1) <= inSize * outSize by { MulLe(inSize, p + 1, outSize); }
    assert inSize * (p + 1) == p * inSize + inSize;
  }

  // The partition of a key.
  function PartOf<K>(kh: K -> nat, outSize: nat, k: K): (p: nat)
    requires outSize > 0
    ensures p < outSize
  {
    kh(k) % outSize
  }

  // Every entry of row r belongs to the partition of that row and has values.
  ghost predicate RowOk<K(!new), V>(kh: K -> nat, inSize: nat, outSize: nat, row: seq<(K, seq<V>)>, r: nat)
    requires outSize > 0
  {
    forall j :: 0 <= j < |row| ==>
      var p := PartOf(kh, outSize, row[j].0); RowOf(inSize, p, 0) <= r < RowOf(inSize, p, inSize) && row[j].1 != []
  }

  ghost predicate RowsOk<K(!new), V>(kh: K -> nat, inSize: nat, outSize: nat, rows: seq<seq<(K, seq<V>)>>)
    requires outSize > 0
  {
    |rows| == inSize * outSize && forall r :: 0 <= r < |rows| ==> RowOk(kh, inSize, outSize, rows[r], r)
  }

  // Rows that have grown by certain pairs, each in the row of its key's partition and of thread inIndex.
  ghost predicate Grown<K(!new), V(!new)>(kh: K -> nat, inSize: nat, outSize: nat, inIndex: nat,
                                          rows: seq<seq<(K, seq<V>)>>, rows': seq<seq<(K, seq<V>)>>,
                                          added: multiset<(K, V)>)
    requires outSize > 0
  {
    && |rows'| == |rows|
    && forall r: nat, k, v {:trigger Pairs(rows'[r])[(k, v)]} :: r < |rows| ==>
         Pairs(rows'[r])[(k, v)] ==
         Pairs(rows[r])[(k, v)] + if r == kh(k) % outSize * inSize + inIndex then added[(k, v)] else 0
  }

  class HashContainer<K(==, !new), V(!new)> {
    const kh: K -> nat
    const inSize: nat
    const outSize: nat
    const vals: array<seq<(K, seq<V>)>>
    ghost var emitted: multiset<(K, V)>

    ghost predicate Valid()
      reads this, vals
    {
      outSize > 0 && RowsOk(kh, inSize, outSize, vals[..]) && RowsPairs(vals[..]) == emitted
    }

    // init.
    constructor (kh: K -> nat, inSize: nat, outSize: nat)
      requires outSize > 0
      ensures Valid() && emitted == multiset{} && fresh(vals)
      ensures this.kh == kh && this.inSize == inSize && this.outSize == outSize
    {
      this.kh, this.inSize, this.outSize := kh, inSize, outSize;
      vals := new seq<(K, seq<V>)>[inSize * outSize](_ => []);
      emitted := multiset{};
      new;
      NoRows(vals[..]);
    }

    // push_back of one entry.
    method Push(inIndex: nat, e: (K, seq<V>))
      requires Valid() && inIndex < inSize && e.1 != []
      modifies vals, this`emitted
      ensures Valid() && emitted == old(emitted) + PairsOf(e.0, e.1)
      ensures Grown(kh, inSize, outSize, inIndex, old(vals[..]), vals[..], PairsOf(e.0, e.1))
    {
      var p := PartOf(kh, outSize, e.0);
      RowExists(inSize, outSize, p, inIndex);
      var r := RowOf(inSize, p, inIndex);
      PushOk(kh, inSize, outSize, vals[..], p, inIndex, e);
      RowsPush(vals[..], r, e);
      ghost var rows := vals[..];
      vals[r] := vals[r] + [e];
      assert vals[..] == rows[r := rows[r] + [e]];
      GrowOne(kh, inSize, outSize, inIndex, rows, e);
      emitted := emitted + PairsOf(e.0, e.1);
    }

    // One turn of the loop of add.
    method AddNext(inIndex: nat, i: ConstIterator<K, seq<V>>) returns (ghost added: multiset<(K, V)>)
      requires Valid() && inIndex < inSize && i.a.Valid() && i.index < i.a.size && i.a.occupied[i.index]
      requires vals as object != i.a.table && vals as object != i.a.occupied
      modifies vals, this`emitted, i`index
      ensures Valid() && i.a.Valid() && old(i.index) < i.index <= i.a.size
      ensures i.index < i.a.size ==> i.a.occupied[i.index]
      ensures emitted == old(emitted) + added
      ensures added + Pairs(Entries(i.a.cells, i.index)) == Pairs(Entries(i.a.cells, old(i.index)))
      ensures Grown(kh, inSize, outSize, inIndex, old(vals[..]), vals[..], added)
    {
      hide PairsOf, Pairs, Fits, Power, RowsPairs, RowsOk, Count, Entries, Grown;
      var e := i.a.table[i.index];
      i.Increment();
      PairsFirst(e, Entries(i.a.cells, i.index));
      added := PairsOf(e.0, e.1);
      if e.1 != [] {
        Push(inIndex, e);
      } else {
        NoPairs<K, V>(e.0);
        GrowNone(kh, inSize, outSize, inIndex, vals[..]);
      }
    }

    // The loop of add, from an iterator at its first entry up to the iterator end(). It does not end (not ok) if end()
    // lies behind the table, where an increment has no effect.
    method AddFrom(inIndex: nat, i: ConstIterator<K, seq<V>>, end: nat) returns (ok: bool)
      requires Valid() && inIndex < inSize && i.a.Valid() && (end == i.index || end >= i.a.size)
      requires i.index <= i.a.size && (i.index < i.a.size ==> i.a.occupied[i.index])
      requires vals as object != i.a.table && vals as object != i.a.occupied
      modifies vals, this`emitted, i`index
      ensures Valid() && (ok <==> end == old(i.index) || end == i.a.size)
      ensures emitted ==
              old(emitted) + if end == old(i.index) then multiset{} else Pairs(Entries(i.a.cells, old(i.index)))
      ensures Grown(kh, inSize, outSize, inIndex, old(vals[..]), vals[..],
                    if end == old(i.index) then multiset{} else Pairs(Entries(i.a.cells, old(i.index))))
    {
      hide PairsOf, Pairs, Fits, Power, RowsPairs, RowsOk, Count, Entries, Grown;
      GrowNone(kh, inSize, outSize, inIndex, vals[..]);
      ghost var got: multiset<(K, V)> := multiset{};
      NothingBehind(i.a.cells, i.a.size);
      NoEntries<K, V>();
      while i.index != end && i.index < i.a.size
        invariant Valid() && i.a.Valid() && i.index <= i.a.size && (i.index < i.a.size ==> i.a.occupied[i.index])
        invariant old(i.index) <= i.index && (end == old(i.index) ==> i.index == end && got == multiset{})
        invariant emitted == old(emitted) + got
        invariant got + Pairs(Entries(i.a.cells, i.index)) == Pairs(Entries(i.a.cells, old(i.index)))
        invariant Grown(kh, inSize, outSize, inIndex, old(vals[..]), vals[..], got)
        decreases i.a.size - i.index
      {
        ghost var rows := vals[..];
        ghost var added := AddNext(inIndex, i);
        GrowOn(kh, inSize, outSize, inIndex, old(vals[..]), rows, vals[..], got, added);
        got := got + added;
      }
      assert got == if end == old(i.index) then multiset{} else Pairs(Entries(i.a.cells, old(i.index)));
      ok := i.index == end;
    }

    // add: the table of one thread, without its empty combiners. It adds everything exactly for tables of fewer than
    // 2^31 slots; with exactly as many it never ends, and a larger table is taken for an empty one.
    method Add(inIndex: nat, j: HashTable<K, seq<V>>, ghost em: multiset<(K, V)>) returns (ok: bool)
      requires Valid() && inIndex < inSize && j.Valid() && Represents(j.m, em)
      requires vals as object != j.table && vals as object != j.occupied
      modifies vals, this`emitted
      ensures Valid() && (ok <==> j.size != 0x8000_0000)
      ensures ok ==> emitted == old(emitted) + if j.size < 0x8000_0000 then em else multiset{}
      ensures ok ==> forall r: nat, k, v {:trigger Pairs(vals[r])[(k, v)]} :: r < vals.Length ==>
                Pairs(vals[r])[(k, v)] ==
                Pairs(old(vals[r]))[(k, v)] +
                if j.size < 0x8000_0000 && r == kh(k) % outSize * inSize + inIndex then em[(k, v)] else 0
    {
      hide PairsOf, Pairs, Represents, Fits, Power, RowsPairs, RowsOk, ToWord, ToInt, Count, Entries, Stores;
      TablePairs(j.cells, j.kh, j.m, em);
      EndPosition(j.size);
      WordOfZero();
      NothingBehind(j.cells, j.size);
      NoEntries<K, V>();
      var i := new ConstIterator<K, seq<V>>(j, 0);
      var end := new ConstIterator<K, seq<V>>(j, ToInt(j.size));
      ok := AddFrom(inIndex, i, end.index);
    }
  }

  lemma GrowOne<K(!new), V(!new)>(kh: K -> nat, inSize: nat, outSize: nat, inIndex: nat, rows: seq<seq<(K, seq<V>)>>,
                                  e: (K, seq<V>))
    requires outSize > 0 && RowOf(inSize, PartOf(kh, outSize, e.0), inIndex) < |rows|
    ensures var x := RowOf(inSize, PartOf(kh, outSize, e.0), inIndex);
            Grown(kh, inSize, outSize, inIndex, rows, rows[x := rows[x] + [e]], PairsOf(e.0, e.1))
  {
    var x := RowOf(inSize, PartOf(kh, outSize, e.0), inIndex);
    assert x == kh(e.0) % outSize * inSize + inIndex;
    PairsPush(rows[x], e);
    hide Pairs, PairsOf, RowOf, PartOf;
    forall r: nat, k, v {:trigger Pairs(rows[x := rows[x] + [e]][r])[(k, v)]} | r < |rows|
      ensures Pairs(rows[x := rows[x] + [e]][r])[(k, v)] ==
              Pairs(rows[r])[(k, v)] +
              if r == kh(k) % outSize * inSize + inIndex then PairsOf(e.0, e.1)[(k, v)] else 0
    {
      PairsOfCount(e.0, e.1, k, v);
    }
  }

  lemma GrowNone<K(!new), V(!new)>(kh: K -> nat, inSize: nat, outSize: nat, inIndex: nat, rows: seq<seq<(K, seq<V>)>>)
    requires outSize > 0
    ensures Grown(kh, inSize, outSize, inIndex, rows, rows, multiset{})
  {
    hide Pairs;
  }

  lemma GrowOn<K(!new), V(!new)>(kh: K -> nat, inSize: nat, outSize: nat, inIndex: nat, a: seq<seq<(K, seq<V>)>>,
                                 b: seq<seq<(K, seq<V>)>>, c: seq<seq<(K, seq<V>)>>,
                                 x: multiset<(K, V)>, y: multiset<(K, V)>)
    requires outSize > 0 && Grown(kh, inSize, outSize, inIndex, a, b, x) && Grown(kh, inSize, outSize, inIndex, b, c, y)
    ensures Grown(kh, inSize, outSize, inIndex, a, c, x + y)
  {
    hide Pairs;
  }

  lemma NoRows<K(!new), V>(rows: seq<seq<(K, seq<V>)>>)
    requires forall r :: 0 <= r < |rows| ==> rows[r] == []
    ensures RowsPairs(rows) == multiset{}
  {
    if rows != [] { NoRows(rows[..|rows| - 1]); }
  }

  lemma PushOk<K(!new), V>(kh: K -> nat, inSize: nat, outSize: nat, rows: seq<seq<(K, seq<V>)>>, p: nat, i: nat,
                          e: (K, seq<V>))
    requires outSize > 0 && i < inSize && p == PartOf(kh, outSize, e.0) && e.1 != []
    requires RowsOk(kh, inSize, outSize, rows) && RowOf(inSize, p, i) < |rows|
    ensures var r := RowOf(inSize, p, i); RowsOk(kh, inSize, outSize, rows[r := rows[r] + [e]])
  {
    var r := RowOf(inSize, p, i);
    assert RowOk(kh, inSize, outSize, rows[r], r);
    RowBetween(inSize, p, i);
    hide RowOf;
  }

  lemma RowBetween(inSize: nat, p: nat, i: nat)
    requires i < inSize
    ensures RowOf(inSize, p, 0) <= RowOf(inSize, p, i) < RowOf(inSize, p, inSize)
  {
  }

  lemma WordOfZero()
    ensures ToWord(0) == 0
  {
  }

  lemma NothingBehind<K, V>(cells: seq<Cell<K, V>>, i: nat)
    requires i >= |cells|
    ensures Entries(cells, i) == []
  {
  }

  lemma NoEntries<K, V>()
    ensures Pairs<K, V>([]) == multiset{}
  {
  }

  lemma NoPairs<K, V>(key: K)
    ensures PairsOf<K, V>(key, []) == multiset{}
  {
  }

  lemma PairsFirst<K, V>(e: (K, seq<V>), rest: seq<(K, seq<V>)>)
    ensures Pairs([e] + rest) == PairsOf(e.0, e.1) + Pairs(rest)
  {
    PairsConcat([e], rest);
    PairsPush([], e);
    assert [] + [e] == [e];
  }

  // ------------------------------------------------------------------ the reduce iterator

  // All values that have been joined for a key.
  function ValuesFor<K, V>(combined: map<K, seq<seq<V>>>, k: K): seq<V> {
    if k in combined then Flatten(combined[k]) else []
  }

  ghost predicate NoEmptyList<V>(lists: seq<seq<V>>) {
    lists != [] && forall i :: 0 <= i < |lists| ==> lists[i] != []
  }

  // What has been joined holds exactly these pairs: per key the lists of values, none of them empty.
  ghost predicate Joined<K(!new), V(!new)>(combined: map<K, seq<seq<V>>>, em: multiset<(K, V)>) {
    && (forall k, v :: em[(k, v)] == multiset(ValuesFor(combined, k))[v])
    && (forall k :: k in combined ==> NoEmptyList(combined[k]))
  }

  function Join<K, V>(combined: map<K, seq<seq<V>>>, key: K, vs: seq<V>): map<K, seq<seq<V>>> {
    combined[key := (if key in combined then combined[key] else []) + [vs]]
  }

  lemma JoinValues<K, V>(combined: map<K, seq<seq<V>>>, key: K, vs: seq<V>, k: K)
    ensures ValuesFor(Join(combined, key, vs), k) == ValuesFor(combined, k) + if k == key then vs else []
  {
    if k == key { FlattenSnoc(if key in combined then combined[key] else [], vs); }
  }

  lemma JoinLists<K, V>(combined: map<K, seq<seq<V>>>, key: K, vs: seq<V>, k: K)
    requires vs != [] && k in Join(combined, key, vs) && (k in combined ==> NoEmptyList(combined[k]))
    ensures NoEmptyList(Join(combined, key, vs)[k])
  {
  }

  lemma JoinOne<K(!new), V(!new)>(combined: map<K, seq<seq<V>>>, em: multiset<(K, V)>, key: K, vs: seq<V>)
    requires Joined(combined, em) && vs != []
    ensures Joined(Join(combined, key, vs), em + PairsOf(key, vs))
  {
    hide PairsOf, Join, ValuesFor, NoEmptyList;
    var combined' := Join(combined, key, vs);
    forall k, v
      ensures (em + PairsOf(key, vs))[(k, v)] == multiset(ValuesFor(combined', k))[v]
    {
      PairsOfCount(key, vs, k, v);
      JoinValues(combined, key, vs, k);
    }
    forall k | k in combined'
      ensures NoEmptyList(combined'[k])
    {
      JoinLists(combined, key, vs, k);
    }
  }

  // All keys belong to partition p.
  ghost predicate KeysIn<K(!new), V>(kh: K -> nat, outSize: nat, combined: map<K, seq<seq<V>>>, p: nat)
    requires outSize > 0
  {
    forall k :: k in combined ==> PartOf(kh, outSize, k) == p
  }

  // All entries of a row belong to partition p and have values.
  ghost predicate RowIn<K(!new), V>(kh: K -> nat, outSize: nat, row: seq<(K, seq<V>)>, p: nat)
    requires outSize > 0
  {
    forall j :: 0 <= j < |row| ==> PartOf(kh, outSize, row[j].0) == p && row[j].1 != []
  }

  lemma JoinKeys<K(!new), V>(kh: K -> nat, outSize: nat, combined: map<K, seq<seq<V>>>,
                             row: seq<(K, seq<V>)>, j: nat, p: nat)
    requires outSize > 0 && KeysIn(kh, outSize, combined, p) && RowIn(kh, outSize, row, p) && j < |row|
    ensures KeysIn(kh, outSize, Join(combined, row[j].0, row[j].1), p) && row[j].1 != []
  {
    hide PartOf;
  }

  lemma PairsNext<K, V>(row: seq<(K, seq<V>)>, j: nat)
    requires j < |row|
    ensures Pairs(row[..j + 1]) == Pairs(row[..j]) + PairsOf(row[j].0, row[j].1)
  {
    assert row[..j + 1] == row[..j] + [row[j]];
    PairsPush(row[..j], row[j]);
  }

  lemma PairsAll<K, V>(row: seq<(K, seq<V>)>)
    ensures row[..|row|] == row && Pairs(row[..0]) == multiset{}
  {
  }

  // One row of the constructor of hash_container::iterator: combined[val.first].add(&val.second).
  method JoinRow<K(==, !new), V(!new)>(kh: K -> nat, outSize: nat, p: nat, iv: seq<(K, seq<V>)>,
                                       combined0: map<K, seq<seq<V>>>, ghost em: multiset<(K, V)>)
    returns (combined: map<K, seq<seq<V>>>)
    requires outSize > 0 && RowIn(kh, outSize, iv, p) && Joined(combined0, em) && KeysIn(kh, outSize, combined0, p)
    ensures Joined(combined, em + Pairs(iv)) && KeysIn(kh, outSize, combined, p)
  {
    hide Joined, PairsOf, Pairs, Join, KeysIn, RowIn;
    combined := combined0;
    PairsAll(iv);
    assert em + Pairs(iv[..0]) == em;
    var j := 0;
    while j < |iv|
      invariant j <= |iv| && Joined(combined, em + Pairs(iv[..j])) && KeysIn(kh, outSize, combined, p)
    {
      JoinKeys(kh, outSize, combined, iv, j, p);
      JoinOne(combined, em + Pairs(iv[..j]), iv[j].0, iv[j].1);
      PairsNext(iv, j);
      assert em + Pairs(iv[..j + 1]) == em + Pairs(iv[..j]) + PairsOf(iv[j].0, iv[j].1);
      combined := Join(combined, iv[j].0, iv[j].1);
      j := j + 1;
    }
  }

  lemma RowsNext<K, V>(rows: seq<seq<(K, seq<V>)>>, base: nat, i: nat)
    requires base + i < |rows|
    ensures RowsPairs(rows[base..base + i + 1]) == RowsPairs(rows[base..base + i]) + Pairs(rows[base + i])
    ensures RowsPairs(rows[base..base]) == multiset{}
  {
    assert rows[base..base + i + 1][..i] == rows[base..base + i];
  }

  // The rows of a partition.
  function RowsOf<K, V>(rows: seq<seq<(K, seq<V>)>>, inSize: nat, p: nat): seq<seq<(K, seq<V>)>> {
    if RowOf(inSize, p, 0) <= RowOf(inSize, p, inSize) <= |rows|
    then rows[RowOf(inSize, p, 0)..RowOf(inSize, p, inSize)] else []
  }

  // The constructor of hash_container::iterator: the rows of one partition, joined by key.
  method Begin<K(==, !new), V(!new)>(ac: HashContainer<K, V>, index: nat) returns (combined: map<K, seq<seq<V>>>)
    requires ac.Valid() && index < ac.outSize
    ensures Joined(combined, RowsPairs(RowsOf(ac.vals[..], ac.inSize, index)))
    ensures KeysIn(ac.kh, ac.outSize, combined, index)
  {
    hide Joined, PairsOf, Pairs, RowsPairs, KeysIn, RowIn, RowsOk, RowOf, RowsOf;
    ghost var rows := ac.vals[..];
    ghost var base := RowOf(ac.inSize, index, 0);
    BaseFits(ac.kh, ac.inSize, ac.outSize, rows, index);
    RowsStart<K, V>(rows, base);
    combined := map[];
    NothingJoined<K, V>(ac.kh, ac.outSize, index);
    var i := 0;
    while i < ac.inSize
      invariant i <= ac.inSize && Joined(combined, RowsPairs(rows[base..base + i]))
      invariant KeysIn(ac.kh, ac.outSize, combined, index)
    {
      RowPartition(ac.kh, ac.inSize, ac.outSize, rows, index, i);
      RowsNext(rows, base, i);
      combined := JoinRow(ac.kh, ac.outSize, index, ac.vals[RowOf(ac.inSize, index, i)], combined,
                          RowsPairs(rows[base..base + i]));
      i := i + 1;
    }
  }

  lemma BaseFits<K(!new), V>(kh: K -> nat, inSize: nat, outSize: nat, rows: seq<seq<(K, seq<V>)>>, p: nat)
    requires outSize > 0 && p < outSize && RowsOk(kh, inSize, outSize, rows)
    ensures var base := RowOf(inSize, p, 0);
            base + inSize <= |rows| && RowsOf(rows, inSize, p) == rows[base..base + inSize]
  {
    RowsOrdered(inSize, outSize, p);
  }

  lemma RowsStart<K, V>(rows: seq<seq<(K, seq<V>)>>, base: nat)
    requires base <= |rows|
    ensures RowsPairs(rows[base..base]) == multiset{}
  {
  }

  lemma NothingJoined<K(!new), V(!new)>(kh: K -> nat, outSize: nat, p: nat)
    requires outSize > 0
    ensures Joined<K, V>(map[], multiset{}) && KeysIn<K, V>(kh, outSize, map[], p)
  {
  }

  // The row of a thread and a partition only holds keys of that partition.
  lemma RowPartition<K(!new), V>(kh: K -> nat, inSize: nat, outSize: nat, rows: seq<seq<(K, seq<V>)>>, p: nat, i: nat)
    requires outSize > 0 && p < outSize && i < inSize && RowsOk(kh, inSize, outSize, rows)
    ensures RowOf(inSize, p, i) == RowOf(inSize, p, 0) + i < |rows| && RowIn(kh, outSize, rows[RowOf(inSize, p, i)], p)
  {
    RowExists(inSize, outSize, p, i);
    var r := RowOf(inSize, p, i);
    assert RowOk(kh, inSize, outSize, rows[r], r);
    forall j | 0 <= j < |rows[r]|
      ensures PartOf(kh, outSize, rows[r][j].0) == p
    {
      SamePartition(inSize, p, i, PartOf(kh, outSize, rows[r][j].0));
    }
  }

  lemma SamePartition(inSize: nat, p: nat, i: nat, q: nat)
    requires i < inSize && RowOf(inSize, q, 0) <= RowOf(inSize, p, i) < RowOf(inSize, q, inSize)
    ensures p == q
  {
    if p < q { MulLe(inSize, p + 1, q); }
    if q < p { MulLe(inSize, q + 1, p); }
  }

  // ------------------------------------------------------------------ each key in one partition

  ghost predicate RowsWithout<K(!new), V>(rows: seq<seq<(K, seq<V>)>>, k: K) {
    forall r :: 0 <= r < |rows| ==> !HasKey(rows[r], k)
  }

  lemma {:induction false} PairsWithout<K(!new), V(!new)>(es: seq<(K, seq<V>)>, k: K, v: V)
    requires !HasKey(es, k)
    ensures Pairs(es)[(k, v)] == 0
  {
    if es == [] {
      NoEntries<K, V>();
    } else {
      HasKeyLast(es, k);
      hide HasKey, Pairs;
      PairsWithout(es[..|es| - 1], k, v);
      PairsLast(es, k, v);
    }
  }

  lemma {:induction false} RowsPairsWithout<K(!new), V(!new)>(rows: seq<seq<(K, seq<V>)>>, k: K, v: V)
    requires RowsWithout(rows, k)
    ensures RowsPairs(rows)[(k, v)] == 0
  {
    hide HasKey, Pairs;
    if rows != [] {
      RowsPairsWithout(rows[..|rows| - 1], k, v);
      PairsWithout(rows[|rows| - 1], k, v);
    }
  }

  lemma RowWithout<K(!new), V>(kh: K -> nat, inSize: nat, outSize: nat, rows: seq<seq<(K, seq<V>)>>, k: K, r: nat)
    requires outSize > 0 && RowsOk(kh, inSize, outSize, rows) && r < |rows|
    requires !(RowOf(inSize, PartOf(kh, outSize, k), 0) <= r < RowOf(inSize, PartOf(kh, outSize, k), inSize))
    ensures !HasKey(rows[r], k)
  {
    hide PartOf, RowOf;
    assert RowOk(kh, inSize, outSize, rows[r], r);
  }

  // All pairs with a key are in the rows of the key's partition.
  lemma OnePartition<K(!new), V(!new)>(kh: K -> nat, inSize: nat, outSize: nat, rows: seq<seq<(K, seq<V>)>>, k: K, v: V)
    requires outSize > 0 && RowsOk(kh, inSize, outSize, rows)
    ensures RowsPairs(rows)[(k, v)] == RowsPairs(RowsOf(rows, inSize, PartOf(kh, outSize, k)))[(k, v)]
  {
    var p := PartOf(kh, outSize, k);
    RowsOrdered(inSize, outSize, p);
    var lo, hi := RowOf(inSize, p, 0), RowOf(inSize, p, inSize);
    forall r | 0 <= r < |rows| && !(lo <= r < hi)
      ensures !HasKey(rows[r], k)
    {
      RowWithout(kh, inSize, outSize, rows, k, r);
    }
    hide RowsPairs, HasKey, PartOf, RowOf, RowsOk;
    assert rows == rows[..lo] + rows[lo..hi] + rows[hi..];
    RowsConcat(rows[..lo] + rows[lo..hi], rows[hi..]);
    RowsConcat(rows[..lo], rows[lo..hi]);
    RowsPairsWithout(rows[..lo], k, v);
    RowsPairsWithout(rows[hi..], k, v);
  }

  // The iterator of a partition serves a key of that partition exactly if it was emitted, with exactly the values
  // emitted for it, from whatever threads and in however many calls of add; and next serves all of them.
  lemma PartitionValues<K(!new), V(!new)>(kh: K -> nat, inSize: nat, outSize: nat, rows: seq<seq<(K, seq<V>)>>,
                                          combined: map<K, seq<seq<V>>>, k: K)
    requires outSize > 0 && RowsOk(kh, inSize, outSize, rows)
    requires Joined(combined, RowsPairs(RowsOf(rows, inSize, PartOf(kh, outSize, k))))
    ensures forall v :: RowsPairs(rows)[(k, v)] == multiset(ValuesFor(combined, k))[v]
    ensures k in combined ==> combined[k] != [] && Combiner.Served(combined[k], 0, 0) == ValuesFor(combined, k) != []
  {
    hide RowsPairs, PartOf, RowsOk;
    forall v
      ensures RowsPairs(rows)[(k, v)] == multiset(ValuesFor(combined, k))[v]
    {
      OnePartition(kh, inSize, outSize, rows, k, v);
    }
    if k in combined {
      assert NoEmptyList(combined[k]);
      Combiner.NoEmptyNoGaps(combined[k]);
      assert combined[k][0] != [];
    }
  }
}
