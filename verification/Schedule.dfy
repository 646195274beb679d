/** Work shared out among threads: what the threads produce together does not depend on the sharing. */
module Schedule {
  import opened Collections
  import opened KeyValue

  /** A thread taking a work item from the task queue. */
  datatype Pick = Pick(thread: nat, item: nat)

  predicate Threads(sched: seq<Pick>, n: nat) {
    forall p | p in sched :: p.thread < n
  }

  function Items(sched: seq<Pick>): (r: seq<nat>)
    ensures |r| == |sched| && forall i | 0 <= i < |sched| :: r[i] == sched[i].item
  {
    seq(|sched|, i requires 0 <= i < |sched| => sched[i].item)
  }

  function Range(n: nat): (r: seq<nat>)
    ensures |r| == n && forall i | 0 <= i < n :: r[i] == i
  {
    seq(n, i => i)
  }

  /** Every item below n is picked exactly once. */
  ghost predicate Complete(sched: seq<Pick>, n: nat) {
    multiset(Items(sched)) == multiset(Range(n))
  }

  /** What thread t produces: the outputs of its items, in the order it took them. */
  function ThreadOut<T>(sched: seq<Pick>, t: nat, outs: seq<seq<T>>): seq<T> {
    if sched == [] then []
    else
      var front, last := sched[..|sched| - 1], sched[|sched| - 1];
      ThreadOut(front, t, outs) + if last.thread == t && last.item < |outs| then outs[last.item] else []
  }

  function Outputs<T>(sched: seq<Pick>, n: nat, outs: seq<seq<T>>): (r: seq<seq<T>>)
    ensures |r| == n && forall t | 0 <= t < n :: r[t] == ThreadOut(sched, t, outs)
  {
    seq(n, t requires 0 <= t < n => ThreadOut(sched, t, outs))
  }

  /** The outputs of a list of items. */
  function OutsOf<T>(items: seq<nat>, outs: seq<seq<T>>): seq<T> {
    if items == [] then [] else (if items[0] < |outs| then outs[items[0]] else []) + OutsOf(items[1..], outs)
  }

  lemma {:induction false} OutsOfConcat<T>(a: seq<nat>, b: seq<nat>, outs: seq<seq<T>>)
    ensures OutsOf(a + b, outs) == OutsOf(a, outs) + OutsOf(b, outs)
  {
    if a == [] {
      assert a + b == b;
    } else {
      assert (a + b)[1..] == a[1..] + b;
      OutsOfConcat(a[1..], b, outs);
    }
  }

  /** However the items are shared out, all threads together produce the outputs of all picked items. */
  lemma {:induction false} SharedOut<T>(sched: seq<Pick>, n: nat, outs: seq<seq<T>>)
    requires Threads(sched, n)
    ensures multiset(Flatten(Outputs(sched, n, outs))) == multiset(OutsOf(Items(sched), outs))
  {
    if sched == [] {
      FlattenEmpty(Outputs(sched, n, outs));
    } else {
      var front, last := sched[..|sched| - 1], sched[|sched| - 1];
      SharedOut(front, n, outs);
      LastPick(front, last, n, outs);
      assert sched == front + [last];
    }
  }

  lemma LastPick<T>(front: seq<Pick>, last: Pick, n: nat, outs: seq<seq<T>>)
    requires last.thread < n
    requires multiset(Flatten(Outputs(front, n, outs))) == multiset(OutsOf(Items(front), outs))
    ensures multiset(Flatten(Outputs(front + [last], n, outs))) == multiset(OutsOf(Items(front + [last]), outs))
  {
    hide ThreadOut, Outputs, OutsOf, Flatten;
    OutputsSnoc(front, last, n, outs);
    FlattenGrows(Outputs(front, n, outs), Outputs(front + [last], n, outs), last.thread, OutsOf([last.item], outs));
    assert Items(front + [last]) == Items(front) + [last.item];
    OutsOfConcat(Items(front), [last.item], outs);
  }

  lemma OutputsSnoc<T>(front: seq<Pick>, last: Pick, n: nat, outs: seq<seq<T>>)
    requires last.thread < n
    ensures var a := Outputs(front, n, outs);
            Outputs(front + [last], n, outs) == a[last.thread := a[last.thread] + OutsOf([last.item], outs)]
  {
    hide ThreadOut, Outputs, OutsOf;
    var a, b := Outputs(front, n, outs), Outputs(front + [last], n, outs);
    OutsOfOne(last.item, outs);
    forall t | 0 <= t < n ensures b[t] == a[last.thread := a[last.thread] + OutsOf([last.item], outs)][t] {
      ThreadOutSnoc(front, last, t, outs);
    }
  }

  lemma ThreadOutSnoc<T>(front: seq<Pick>, last: Pick, t: nat, outs: seq<seq<T>>)
    ensures ThreadOut(front + [last], t, outs) ==
            ThreadOut(front, t, outs) + if last.thread == t && last.item < |outs| then outs[last.item] else []
  {
    assert (front + [last])[..|front|] == front;
  }

  lemma OutsOfOne<T>(item: nat, outs: seq<seq<T>>)
    ensures OutsOf([item], outs) == if item < |outs| then outs[item] else []
  {
    assert [item][1..] == [];
  }

  /** The order in which items are picked does not matter to what they produce together. */
  lemma {:induction false} Permuted<T>(a: seq<nat>, b: seq<nat>, outs: seq<seq<T>>)
    requires multiset(a) == multiset(b)
    ensures multiset(OutsOf(a, outs)) == multiset(OutsOf(b, outs))
  {
    if a == [] {
      assert |multiset(a)| == |multiset(b)|;
    } else {
      hide OutsOf;
      var i := IndexOf(b, a);
      var b' := b[..i] + b[i + 1..];
      SameButOne(a, b, i);
      Permuted(a[1..], b', outs);
      TakeOut(b, i, outs);
    }
  }

  lemma SameButOne(a: seq<nat>, b: seq<nat>, i: nat)
    requires a != [] && i < |b| && b[i] == a[0] && multiset(a) == multiset(b)
    ensures multiset(a[1..]) == multiset(b[..i] + b[i + 1..])
  {
    assert a == [a[0]] + a[1..];
    assert b == b[..i] + [b[i]] + b[i + 1..];
    assert multiset(b[..i] + b[i + 1..]) == multiset(b) - multiset{b[i]};
  }

  lemma IndexOf(b: seq<nat>, a: seq<nat>) returns (i: nat)
    requires a != [] && multiset(a) == multiset(b)
    ensures i < |b| && b[i] == a[0]
  {
    assert a[0] in multiset(a);
    assert a[0] in multiset(b);
    i :| 0 <= i < |b| && b[i] == a[0];
  }

  lemma TakeOut<T>(b: seq<nat>, i: nat, outs: seq<seq<T>>)
    requires i < |b|
    ensures multiset(OutsOf(b, outs)) ==
            multiset(if b[i] < |outs| then outs[b[i]] else []) + multiset(OutsOf(b[..i] + b[i + 1..], outs))
  {
    hide OutsOf;
    var left, right := b[..i], b[i + 1..];
    OutsOfConcat(left, right, outs);
    OutsOfConcat(left, [b[i]] + right, outs);
    OutsOfConcat([b[i]], right, outs);
    OutsOfOne(b[i], outs);
    assert b == left + ([b[i]] + right);
  }

  lemma {:induction false} OutsOfRange<T>(n: nat, outs: seq<seq<T>>)
    requires n <= |outs|
    ensures OutsOf(Range(n), outs) == Flatten(outs[..n])
  {
    if n > 0 {
      OutsOfRange(n - 1, outs);
      assert Range(n) == Range(n - 1) + [n - 1] && outs[..n] == outs[..n - 1] + [outs[n - 1]];
      OutsOfConcat(Range(n - 1), [n - 1], outs);
      OutsOfOne(n - 1, outs);
      FlattenConcat(outs[..n - 1], [outs[n - 1]]);
      assert Flatten([outs[n - 1]]) == outs[n - 1] + Flatten([outs[n - 1]][1..]) == outs[n - 1];
    }
  }

  /** If every item is picked exactly once, the threads together produce every item's output,
      whatever the sharing and the order. */
  lemma SharingIrrelevant<T>(sched: seq<Pick>, n: nat, outs: seq<seq<T>>)
    requires Threads(sched, n) && Complete(sched, |outs|)
    ensures multiset(Flatten(Outputs(sched, n, outs))) == multiset(Flatten(outs))
  {
    SharedOut(sched, n, outs);
    Permuted(Items(sched), Range(|outs|), outs);
    OutsOfRange(|outs|, outs);
    assert outs[..|outs|] == outs;
  }
}
