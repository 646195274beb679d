/** Stable sorting and stable merging by a strict weak order, as std::stable_sort and std::merge promise them. */
module StableSort {
  ghost predicate StrictWeak<E(!new)>(less: (E, E) -> bool) {
    && (forall x :: !less(x, x))
    && (forall x, y, z :: less(x, y) && less(y, z) ==> less(x, z))
    && (forall x, y, z :: less(x, z) ==> less(x, y) || less(y, z))
  }

  // x goes before everything that is not less than it.
  function Insert<E>(less: (E, E) -> bool, x: E, s: seq<E>): seq<E> {
    if s == [] || !less(s[0], x) then [x] + s else [s[0]] + Insert(less, x, s[1..])
  }

  function Sort<E>(less: (E, E) -> bool, s: seq<E>): seq<E> {
    if s == [] then [] else Insert(less, s[0], Sort(less, s[1..]))
  }

  // From the second sequence only what is less than the head of the first.
  function Merge<E>(less: (E, E) -> bool, a: seq<E>, b: seq<E>): seq<E>
    decreases |a| + |b|
  {
    if a == [] then b else if b == [] then a
    else if less(b[0], a[0]) then [b[0]] + Merge(less, a, b[1..])
    else [a[0]] + Merge(less, a[1..], b)
  }

  lemma {:induction false} InsertMerge<E(!new)>(less: (E, E) -> bool, x: E, p: seq<E>, q: seq<E>)
    requires StrictWeak(less)
    ensures Merge(less, Insert(less, x, p), q) == Insert(less, x, Merge(less, p, q))
    decreases |p| + |q|
  {
    if q == [] {
    } else if p == [] {
      if less(q[0], x) { InsertMerge(less, x, p, q[1..]); }
    } else if less(q[0], p[0]) && less(q[0], x) {
      InsertMerge(less, x, p, q[1..]);
    } else if less(p[0], x) {
      InsertMerge(less, x, p[1..], q);
    }
  }

  // Merging two sorted parts is sorting the whole.
  lemma {:induction false} MergeSorts<E(!new)>(less: (E, E) -> bool, a: seq<E>, b: seq<E>)
    requires StrictWeak(less)
    ensures Merge(less, Sort(less, a), Sort(less, b)) == Sort(less, a + b)
    decreases |a|
  {
    if a == [] {
      assert a + b == b;
    } else {
      MergeSorts(less, a[1..], b);
      InsertMerge(less, a[0], Sort(less, a[1..]), Sort(less, b));
      assert (a + b)[1..] == a[1..] + b && (a + b)[0] == a[0];
    }
  }

  // ------------------------------------------------------------------ what the result is

  ghost predicate Ascending<E>(less: (E, E) -> bool, s: seq<E>) {
    forall i, j :: 0 <= i < j < |s| ==> !less(s[j], s[i])
  }

  // The elements of s that are neither less nor greater than x, in their order.
  function Class<E>(less: (E, E) -> bool, x: E, s: seq<E>): seq<E> {
    if s == [] then []
    else (if !less(s[0], x) && !less(x, s[0]) then [s[0]] else []) + Class(less, x, s[1..])
  }

  lemma {:induction false} InsertMembers<E>(less: (E, E) -> bool, x: E, s: seq<E>)
    ensures multiset(Insert(less, x, s)) == multiset(s) + multiset{x}
  {
    if s != [] && less(s[0], x) {
      InsertMembers(less, x, s[1..]);
      assert s == [s[0]] + s[1..];
    }
  }

  lemma {:induction false} InsertAscends<E(!new)>(less: (E, E) -> bool, x: E, s: seq<E>)
    requires StrictWeak(less) && Ascending(less, s)
    ensures Ascending(less, Insert(less, x, s))
  {
    if s != [] && less(s[0], x) {
      InsertAscends(less, x, s[1..]);
      var t := Insert(less, x, s[1..]);
      InsertMembers(less, x, s[1..]);
      forall j | 0 <= j < |t|
        ensures !less(t[j], s[0])
      {
        assert t[j] in multiset(t);
        if t[j] != x {
          assert t[j] in multiset(s[1..]);
          var k :| 0 <= k < |s[1..]| && s[1..][k] == t[j];
          assert s[k + 1] == t[j];
        }
      }
    }
  }

  lemma {:induction false} InsertClass<E(!new)>(less: (E, E) -> bool, x: E, s: seq<E>, y: E)
    requires StrictWeak(less)
    ensures Class(less, y, Insert(less, x, s)) == Class(less, y, [x] + s)
  {
    if s != [] && less(s[0], x) {
      InsertClass(less, x, s[1..], y);
      var t := Insert(less, x, s[1..]);
      assert ([s[0]] + t)[1..] == t && ([x] + s)[1..] == s && ([x] + s[1..])[1..] == s[1..];
    }
  }

  // Sort orders its input, keeps its elements, and keeps the order of elements that the order does not tell apart.
  lemma {:induction false} SortMeaning<E(!new)>(less: (E, E) -> bool, s: seq<E>)
    requires StrictWeak(less)
    ensures Ascending(less, Sort(less, s)) && multiset(Sort(less, s)) == multiset(s)
    ensures forall x :: Class(less, x, Sort(less, s)) == Class(less, x, s)
  {
    if s != [] {
      var rest := Sort(less, s[1..]);
      SortMeaning(less, s[1..]);
      InsertAscends(less, s[0], rest);
      InsertMembers(less, s[0], rest);
      assert s == [s[0]] + s[1..];
      forall x
        ensures Class(less, x, Sort(less, s)) == Class(less, x, s)
      {
        InsertClass(less, s[0], rest, x);
        assert ([s[0]] + rest)[1..] == rest;
      }
    }
  }
}
