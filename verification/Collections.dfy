/** What several modules need of collections: optional values, the first natural numbers, and sequences of sequences. */
module Collections {

  datatype Option<T> = None | Some(value: T)

  function Below(n: nat): (r: set<nat>)
    ensures forall i: nat :: i in r <==> i < n
  {
    if n == 0 then {} else Below(n - 1) + {n - 1}
  }

  function Flatten<T>(ss: seq<seq<T>>): (r: seq<T>) {
    if ss == [] then [] else ss[0] + Flatten(ss[1..])
  }

  lemma {:induction false} FlattenConcat<T>(a: seq<seq<T>>, b: seq<seq<T>>)
    ensures Flatten(a + b) == Flatten(a) + Flatten(b)
  {
    if a == [] {
      assert a + b == b;
    } else {
      assert (a + b)[1..] == a[1..] + b;
      FlattenConcat(a[1..], b);
    }
  }

  lemma FlattenOne<T>(s: seq<T>)
    ensures Flatten([s]) == s
  {
    assert [s][1..] == [];
  }

  lemma FlattenSnoc<T>(ss: seq<seq<T>>, s: seq<T>)
    ensures Flatten(ss + [s]) == Flatten(ss) + s
  {
    FlattenConcat(ss, [s]);
    FlattenOne(s);
  }

  lemma {:induction false} FlattenEmpty<T>(ss: seq<seq<T>>)
    ensures Flatten(ss) == [] <==> forall i :: 0 <= i < |ss| ==> ss[i] == []
  {
    if ss != [] {
      FlattenEmpty(ss[1..]);
      assert forall i :: 0 < i < |ss| ==> ss[i] == ss[1..][i - 1];
    }
  }

  /** Adding to one of the sequences adds the same to all of them together. */
  lemma {:induction false} FlattenGrows<T>(a: seq<seq<T>>, b: seq<seq<T>>, t: nat, s: seq<T>)
    requires |a| == |b| && t < |a| && b == a[t := a[t] + s]
    ensures multiset(Flatten(b)) == multiset(Flatten(a)) + multiset(s)
  {
    if t == 0 {
      assert b[1..] == a[1..];
    } else {
      assert b[1..] == a[1..][t - 1 := a[1..][t - 1] + s];
      FlattenGrows(a[1..], b[1..], t - 1, s);
    }
  }

  // The sum of the first n values of f.
  function Sum(f: nat -> nat, n: nat): nat {
    if n == 0 then 0 else Sum(f, n - 1) + f(n - 1)
  }

  lemma {:induction false} OneTerm(f: nat -> nat, f': nat -> nat, n: nat, w: nat)
    requires forall v :: v != w ==> f'(v) == f(v)
    ensures Sum(f', n) - Sum(f, n) == if w < n then f'(w) - f(w) else 0
  {
    if n > 0 { OneTerm(f, f', n - 1, w); }
  }

  lemma {:induction false} SumZero(f: nat -> nat, n: nat)
    requires forall w: nat :: w < n ==> f(w) == 0
    ensures Sum(f, n) == 0
  {
    if n > 0 { SumZero(f, n - 1); }
  }

  lemma {:induction false} SomeTerm(f: nat -> nat, n: nat) returns (w: nat)
    requires Sum(f, n) > 0
    ensures w < n && f(w) > 0
  {
    if f(n - 1) > 0 { w := n - 1; } else { w := SomeTerm(f, n - 1); }
  }

  lemma {:induction false} SumAtMost(f: nat -> nat, n: nat, most: nat)
    requires forall w: nat :: w < n ==> f(w) <= most
    ensures Sum(f, n) <= n * most
  {
    if n > 0 { SumAtMost(f, n - 1, most); }
  }
}
