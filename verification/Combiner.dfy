/** The combiners of combiner.h: buffer_combiner (37-101) keeps all values, and associative_combiner (104-161) folds
    them. */
module Combiner {
  import opened Collections

  // ------------------------------------------------------------------ buffer_combiner

  // What the lists behind the current one serve: reading stops at the first that is empty.
  function Behind<V>(lists: seq<seq<V>>): seq<V> {
    if lists == [] || lists[0] == [] then [] else lists[0] + Behind(lists[1..])
  }

  // What a loop over next serves from position (list, index).
  function Served<V>(items: seq<seq<V>>, list: nat, index: nat): seq<V> {
    if list >= |items| then []
    else (if index <= |items[list]| then items[list][index..] else []) + Behind(items[list + 1..])
  }

  lemma BehindStep<V>(items: seq<seq<V>>, k: nat)
    ensures k <= |items| ==>
              Behind(items[k..]) == if k == |items| || items[k] == [] then [] else items[k] + Behind(items[k + 1..])
  {
    if k < |items| { assert items[k..][1..] == items[k + 1..]; }
  }

  // buffer_combiner::combined: the lists of several combiners, and a cursor.
  class BufferCombined<V(0)> {
    var items: seq<seq<V>>
    var currentList: nat
    var currentIndex: nat

    constructor ()
      ensures items == [] && currentList == 0 && currentIndex == 0
    {
      items, currentList, currentIndex := [], 0, 0;
    }

    method Add(data: seq<V>)
      modifies this`items
      ensures items == old(items) + [data]
    {
      items := items + [data];
    }

    // next: it moves on by at most one list per call.
    method Next() returns (ok: bool, v: V)
      modifies this`currentList, this`currentIndex
      ensures ok <==> Served(items, old(currentList), old(currentIndex)) != []
      ensures ok ==>
                Served(items, old(currentList), old(currentIndex)) == [v] + Served(items, currentList, currentIndex)
    {
      hide Behind;
      BehindStep(items, currentList + 1);
      if currentList < |items| && currentIndex >= |items[currentList]| {
        currentIndex := 0;
        currentList := currentList + 1;
      }
      if currentList < |items| && currentIndex < |items[currentList]| {
        v := items[currentList][currentIndex];
        currentIndex := currentIndex + 1;
        return true, v;
      }
      v := *;
      return false, v;
    }

    // The loop of the default reduce function over all values.
    method Drain() returns (values: seq<V>)
      requires currentList == 0 && currentIndex == 0
      modifies this`currentList, this`currentIndex
      ensures values == Served(items, 0, 0)
    {
      values := [];
      ghost var left := Served(items, 0, 0);
      var ok, v := Next();
      while ok
        invariant values + left == Served(items, 0, 0)
        invariant if ok then left == [v] + Served(items, currentList, currentIndex) else left == []
        decreases |left| + if ok then 1 else 0
      {
        values := values + [v];
        left := left[1..];
        ok, v := Next();
      }
    }
  }

  // From position k on, nothing but empty lists behind an empty list.
  ghost predicate NoGapsFrom<V>(items: seq<seq<V>>, k: nat) {
    forall i, j :: k <= i < j < |items| && items[i] == [] ==> items[j] == []
  }

  // The same for all lists but the very first.
  ghost predicate NoGaps<V>(items: seq<seq<V>>) {
    NoGapsFrom(items, 1)
  }

  lemma SamePrefix<V>(p: seq<V>, a: seq<V>, b: seq<V>)
    ensures p + a == p + b <==> a == b
  {
    assert (p + a)[|p|..] == a && (p + b)[|p|..] == b;
  }

  lemma {:induction false} BehindAll<V>(lists: seq<seq<V>>)
    ensures Behind(lists) == Flatten(lists) <==> NoGapsFrom(lists, 0)
  {
    if lists != [] {
      hide NoGapsFrom;
      BehindAll(lists[1..]);
      SamePrefix(lists[0], Behind(lists[1..]), Flatten(lists[1..]));
      if lists[0] == [] {
        assert Flatten(lists) == Flatten(lists[1..]);
        GapAtFront(lists);
      }
    }
  }

  lemma GapAtFront<V>(lists: seq<seq<V>>)
    requires lists != [] && lists[0] == []
    ensures NoGapsFrom(lists, 0) <==> Flatten(lists[1..]) == []
  {
    var rest := lists[1..];
    FlattenEmpty(rest);
    assert forall j :: 0 < j < |lists| ==> lists[j] == rest[j - 1];
    if Flatten(rest) != [] {
      var j :| 0 <= j < |rest| && rest[j] != [];
      assert lists[0] == [] && lists[j + 1] != [];
    }
  }

  // Reading serves all values exactly if no list is empty that has values behind it; the first list may be.
  lemma ServesAllExactly<V>(items: seq<seq<V>>)
    ensures Served(items, 0, 0) == Flatten(items) <==> NoGaps(items)
  {
    if items != [] {
      BehindAll(items[1..]);
      SamePrefix(items[0], Behind(items[1..]), Flatten(items[1..]));
      assert items[0][0..] == items[0];
    }
  }

  // A concrete case: the value behind the empty list is not served.
  lemma GapHidesValue<V>(x: V, y: V)
    ensures Served([[x], [], [y]], 0, 0) == [x] && Flatten([[x], [], [y]]) == [x, y]
  {
    var items := [[x], [], [y]];
    BehindStep(items, 1);
    assert items[1..][1..] == [[y]] && [[y]][1..] == [];
    assert Flatten([[y]]) == [y] && Flatten(items[1..]) == [y];
  }

  // hash_container::add leaves out empty combiners, so that there are no gaps.
  lemma NoEmptyNoGaps<V>(items: seq<seq<V>>)
    requires forall i :: 0 <= i < |items| ==> items[i] != []
    ensures NoGaps(items) && Served(items, 0, 0) == Flatten(items)
  {
    ServesAllExactly(items);
  }

  // ------------------------------------------------------------------ associative_combiner

  // What combining asks of Impl::F and Impl::Init; sum_combiner and one_combiner both meet it.
  ghost predicate Associates<V(!new)>(f: (V, V) -> V, init: V) {
    && (forall x :: f(init, x) == x)
    && (forall x, y, z :: f(f(x, y), z) == f(x, f(y, z)))
  }

  // What an order chosen by the threads asks for besides; one_combiner does not meet it.
  ghost predicate Commutes<V(!new)>(f: (V, V) -> V) {
    forall x, y :: f(x, y) == f(y, x)
  }

  // sum_combiner adds up, and one_combiner keeps the last value.
  lemma Shipped<V(!new)>(init: V)
    ensures Associates((x: int, y: int) => x + y, 0) && Commutes((x: int, y: int) => x + y)
    ensures Associates((x: V, y: V) => y, init)
    ensures !Commutes((x: int, y: int) => y)
  {
    var last := (x: int, y: int) => y;
    assert last(0, 1) != last(1, 0);
  }

  // Impl::F folded over the values, from the left and starting at Impl::Init.
  function Fold<V>(f: (V, V) -> V, init: V, vs: seq<V>): V {
    if vs == [] then init else f(Fold(f, init, vs[..|vs| - 1]), vs[|vs| - 1])
  }

  // One combiner of the map phase.
  class Associative<V> {
    const f: (V, V) -> V
    const init: V
    var data: V
    var empty: bool
    ghost var added: seq<V>

    ghost predicate Valid()
      reads this
    {
      data == Fold(f, init, added) && (empty <==> added == [])
    }

    constructor (f: (V, V) -> V, init: V)
      ensures Valid() && added == [] && this.f == f && this.init == init
    {
      this.f, this.init, data, empty, added := f, init, init, true, [];
    }

    method Add(v: V)
      requires Valid()
      modifies this
      ensures Valid() && added == old(added) + [v]
    {
      data := f(data, v);
      empty := false;
      added := added + [v];
      assert added[..|added| - 1] == old(added);
    }
  }

  // associative_combiner::combined: the combiners of one key from all map threads.
  class AssociativeCombined<V(!new)> {
    const f: (V, V) -> V
    const init: V
    var m: V
    var i: nat
    var empty: bool
    ghost var added: seq<V>

    ghost predicate Valid()
      reads this
    {
      m == Fold(f, init, added) && (empty <==> added == [])
    }

    constructor (f: (V, V) -> V, init: V)
      ensures Valid() && added == [] && i == 0 && this.f == f && this.init == init
    {
      this.f, this.init, m, i, empty, added := f, init, init, 0, true, [];
    }

    // Folding in what another combiner has folded amounts to folding in its values.
    method Add(c: Associative<V>)
      requires Valid() && c.Valid() && c.f == f && c.init == init && Associates(f, init)
      modifies this`m, this`empty, this`added
      ensures Valid() && added == old(added) + c.added
    {
      if !c.empty {
        m := f(m, c.data);
        empty := false;
        FoldConcat(f, init, added, c.added);
      } else {
        assert added + c.added == added;
      }
      added := added + c.added;
    }

    // next serves the one value once.
    method Next() returns (ok: bool, v: V)
      requires Valid()
      modifies this`i
      ensures Valid() && v == Fold(f, init, added) && i == old(i) + 1
      ensures ok <==> old(i) == 0
    {
      v := m;
      ok := i == 0;
      i := i + 1;
    }

    method Size() returns (n: nat)
      requires Valid()
      ensures n == if added == [] then 0 else 1
    {
      n := if empty then 0 else 1;
    }
  }

  lemma {:induction false} FoldConcat<V(!new)>(f: (V, V) -> V, init: V, a: seq<V>, b: seq<V>)
    requires Associates(f, init) && b != []
    ensures Fold(f, init, a + b) == f(Fold(f, init, a), Fold(f, init, b))
  {
    var n := |b| - 1;
    assert (a + b)[..|a + b| - 1] == a + b[..n] && (a + b)[|a + b| - 1] == b[n];
    if n == 0 {
      assert b[..0] == [] && a + b[..0] == a;
      Neutral(f, init, b[0]);
    } else {
      FoldConcat(f, init, a, b[..n]);
      Regroup(f, init, Fold(f, init, a), Fold(f, init, b[..n]), b[n]);
    }
    hide Associates;
  }

  lemma Neutral<V(!new)>(f: (V, V) -> V, init: V, x: V)
    requires Associates(f, init)
    ensures f(init, x) == x
  {
  }

  lemma Regroup<V(!new)>(f: (V, V) -> V, init: V, x: V, y: V, z: V)
    requires Associates(f, init)
    ensures f(f(x, y), z) == f(x, f(y, z))
  {
  }

  lemma Cancel<V>(a: multiset<V>, b: multiset<V>, x: V)
    requires a + multiset{x} == b + multiset{x}
    ensures a == b
  {
    assert a == (a + multiset{x}) - multiset{x};
    assert b == (b + multiset{x}) - multiset{x};
  }

  // The folded value depends only on which values were added how often.
  lemma {:induction false} FoldOrder<V(!new)>(f: (V, V) -> V, init: V, a: seq<V>, b: seq<V>)
    requires Associates(f, init) && Commutes(f) && multiset(a) == multiset(b)
    ensures Fold(f, init, a) == Fold(f, init, b)
    decreases |a|
  {
    if a == [] {
      assert |multiset(a)| == |a| && |multiset(b)| == |b|;
    } else {
      var n := |a| - 1;
      assert a == a[..n] + [a[n]];
      assert a[n] in multiset(b);
      var k :| 0 <= k < |b| && b[k] == a[n];
      var b' := b[..k] + b[k + 1..];
      assert b == b[..k] + [b[k]] + b[k + 1..];
      assert multiset(b) == multiset(b') + multiset{b[k]};
      assert multiset(a) == multiset(a[..n]) + multiset{a[n]};
      Cancel(multiset(a[..n]), multiset(b'), a[n]);
      FoldOrder(f, init, a[..n], b');
      TakeOut(f, init, b[..k], b[k], b[k + 1..]);
    }
  }

  lemma TakeOut<V(!new)>(f: (V, V) -> V, init: V, a: seq<V>, x: V, b: seq<V>)
    requires Associates(f, init) && Commutes(f)
    ensures Fold(f, init, a + [x] + b) == f(Fold(f, init, a + b), x)
  {
    assert (a + [x])[..|a|] == a;
    if b == [] {
      assert a + [x] + b == a + [x] && a + b == a;
    } else {
      FoldConcat(f, init, a + [x], b);
      FoldConcat(f, init, a, b);
      var p, q := Fold(f, init, a), Fold(f, init, b);
      assert f(f(p, x), q) == f(p, f(x, q)) == f(p, f(q, x)) == f(f(p, q), x);
    }
  }

  function Folds<V>(f: (V, V) -> V, init: V, lists: seq<seq<V>>): (folds: seq<V>)
    ensures |folds| == |lists|
  {
    if lists == [] then [] else [Fold(f, init, lists[0])] + Folds(f, init, lists[1..])
  }

  // Folding what each combiner has folded is folding all values. Empty combiners are left out before.
  lemma {:induction false} FoldOfFolds<V(!new)>(f: (V, V) -> V, init: V, lists: seq<seq<V>>)
    requires Associates(f, init) && forall i :: 0 <= i < |lists| ==> lists[i] != []
    ensures Fold(f, init, Folds(f, init, lists)) == Fold(f, init, Flatten(lists))
  {
    if lists != [] {
      var first, rest := Fold(f, init, lists[0]), lists[1..];
      FoldOne(f, init, first);
      if rest == [] {
        assert Folds(f, init, lists) == [first] && Flatten(lists) == lists[0];
      } else {
        hide Fold, Associates;
        assert rest[0] != [] && Flatten(rest) != [];
        FoldOfFolds(f, init, rest);
        FoldConcat(f, init, [first], Folds(f, init, rest));
        FoldConcat(f, init, lists[0], Flatten(rest));
      }
    }
  }

  lemma FoldOne<V(!new)>(f: (V, V) -> V, init: V, x: V)
    requires Associates(f, init)
    ensures Fold(f, init, [x]) == x
  {
    assert [x][..0] == [] && Fold(f, init, []) == init;
  }
}
