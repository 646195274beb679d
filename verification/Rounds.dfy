/** The rounds that a run asks a pool for, given by the number of workers in each, and when the pool is a barrier for
    all of them. */
module Rounds {
  import opened ThreadPool
  import opened ThreadPoolRace

  // How many workers the rounds of a plan ask for.
  function Widths(c: Setting): (widths: seq<nat>)
    ensures |widths| == |c.plan| && forall k :: 0 <= k < |c.plan| ==> widths[k] == Width(c, k)
  {
    seq(|c.plan|, k requires 0 <= k < |c.plan| => Width(c, k))
  }

  // No round with work is narrower than the one with work before it, where `last` stands before the first.
  predicate Rising(last: nat, widths: seq<nat>)
    decreases |widths|
  {
    widths == [] ||
    ((widths[0] == 0 || last <= widths[0]) && Rising(if widths[0] == 0 then last else widths[0], widths[1..]))
  }

  // Round k, if it has work, is not narrower than the one with work before it.
  predicate Wide(c: Setting, k: nat)
    requires k < |c.plan|
  {
    Width(c, k) == 0 || Before(c, k) <= Width(c, k)
  }

  predicate WideFrom(c: Setting, k: nat) {
    forall i :: k <= i < |c.plan| ==> Wide(c, i)
  }

  lemma WideFromStart(c: Setting)
    ensures Growing(c, |c.plan|) <==> WideFrom(c, 0)
  {
    if Growing(c, |c.plan|) {
      forall i | 0 <= i < |c.plan|
        ensures Wide(c, i)
      {
        assert Width(c, i) == 0 || Before(c, i) <= Width(c, i);
      }
    }
    if WideFrom(c, 0) {
      forall k | 0 <= k < |c.plan|
        ensures Width(c, k) == 0 || Before(c, k) <= Width(c, k)
      {
        assert Wide(c, k);
      }
    }
  }

  lemma {:induction false} RisingIsGrowing(c: Setting, k: nat)
    requires k <= |c.plan|
    ensures Rising(Before(c, k), Widths(c)[k..]) <==> WideFrom(c, k)
    decreases |c.plan| - k
  {
    if k < |c.plan| {
      RisingIsGrowing(c, k + 1);
      assert Widths(c)[k..][1..] == Widths(c)[k + 1..];
      assert WideFrom(c, k) <==> Wide(c, k) && WideFrom(c, k + 1);
    }
  }

  // The pool is a barrier for rounds of the given widths exactly if they do not shrink.
  lemma BarrierFor(c: Setting)
    requires Fits(c)
    ensures IsBarrier(c) <==> Rising(0, Widths(c))
  {
    BarrierExactly(c);
    RisingIsGrowing(c, 0);
    assert Widths(c)[0..] == Widths(c);
    WideFromStart(c);
  }

  lemma {:induction false} MonotoneRises(last: nat, widths: seq<nat>)
    requires forall i, j :: 0 <= i <= j < |widths| ==> last <= widths[i] <= widths[j]
    ensures Rising(last, widths)
    decreases |widths|
  {
    if widths != [] { MonotoneRises(widths[0], widths[1..]); }
  }

  // The width of the last round with work, or `last` if there is none.
  function LastWidth(last: nat, widths: seq<nat>): nat
    decreases |widths|
  {
    if widths == [] then last else LastWidth(if widths[0] == 0 then last else widths[0], widths[1..])
  }

  // Further rounds behind the others.
  lemma {:induction false} RisingOn(last: nat, widths: seq<nat>, more: seq<nat>)
    ensures Rising(last, widths + more) <==> Rising(last, widths) && Rising(LastWidth(last, widths), more)
    decreases |widths|
  {
    if widths == [] {
      assert widths + more == more;
    } else {
      assert (widths + more)[1..] == widths[1..] + more;
      RisingOn(if widths[0] == 0 then last else widths[0], widths[1..], more);
    }
  }

  lemma {:induction false} LastWidthIs(last: nat, widths: seq<nat>)
    requires widths != [] && widths[|widths| - 1] > 0
    ensures LastWidth(last, widths) == widths[|widths| - 1]
    decreases |widths|
  {
    if |widths| > 1 { LastWidthIs(if widths[0] == 0 then last else widths[0], widths[1..]); }
  }
}
