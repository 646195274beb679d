/** What holds in every run of the thread pools whose rounds do not shrink. */
module ThreadPoolRuns {
  import opened ThreadPool

  lemma {:induction false} RunKeeps(c: Setting, ss: seq<System>, steps: seq<Step>, k: nat)
    requires Run(c, ss, steps) && k < |ss| && Fits(c) && Growing(c, |c.plan|)
    ensures Inv(c, ss[k])
    decreases k
  {
    if k == 0 {
      InitHolds(c, ss[0]);
    } else {
      RunKeeps(c, ss, steps, k - 1);
      hide Inv, Next, Fits, Growing, Init;
      StepKeeps(c, ss[k - 1], steps[k - 1]);
    }
  }

  // Every call that the plan asks for in the rounds that the controller has left has been made, exactly once, and no
  // other call.
  ghost predicate RoundsDone(c: Setting, s: System) {
    && (forall i, j :: 0 <= i < j < |s.log| ==> s.log[i] != s.log[j])
    && (forall call :: call in s.log <==> Planned(c, call) && call.round < s.round)
  }

  // When rounds do not shrink: wait returns only when every chosen worker has run the function of the round once, on
  // its own argument; and there is at most one completion post, taken by the controller before the next round.
  lemma Barrier(c: Setting, ss: seq<System>, steps: seq<Step>, k: nat)
    requires Run(c, ss, steps) && k < |ss| && Fits(c) && Growing(c, |c.plan|)
    ensures ss[k].control == Set ==> RoundsDone(c, ss[k]) && ss[k].all == 0
    ensures ss[k].all <= 1
    ensures ss[k].all == 1 ==> ss[k].round < |c.plan| && |ss[k].finished| == Width(c, ss[k].round)
  {
    RunKeeps(c, ss, steps, k);
    hide Planned, Domains, Loaded;
  }
}
