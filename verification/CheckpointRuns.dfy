/** What holds in every run of MTCP's checkpoint protocol: quiescence while the image is written, a consistent image,
    and no checkpoint of a thread that has called mtcp_no. */
module CheckpointRuns {
  import opened Checkpoint

  lemma {:induction false} RunKeeps(ss: seq<System>, steps: seq<Step>, k: nat)
    requires Run(ss, steps) && k < |ss|
    ensures Inv(ss[k])
    decreases k
  {
    if k > 0 {
      RunKeeps(ss, steps, k - 1);
      hide Inv;
      StepKeeps(ss[k - 1], steps[k - 1]);
    }
  }

  predicate RunsUserCode(step: Step) {
    step.Write? || step.Create? || step.Finish? || step.Vanish? || step.CallOk? || step.CallNo? || step.InCall?
  }

  // Quiescence: from leaving the rescan loop until the resume loop every listed thread except the checkpoint thread
  // is suspended inside stopthisthread, and no step of user code, mtcp_ok or mtcp_no is possible.
  lemma Quiescence(ss: seq<System>, steps: seq<Step>, k: nat)
    requires Run(ss, steps) && k < |ss| && ss[k].pc == Quiet
    ensures forall t :: Listed(ss[k], t) ==>
              ss[k].threads[t].state == Suspended && Held(ss[k].threads[t].frames) == InWait
    ensures forall t :: t in ss[k].list && t != ss[k].ckpt ==> t in ss[k].threads && ss[k].threads[t].state == Suspended
    ensures forall step :: Enabled(ss[k], step) ==> !RunsUserCode(step)
  {
    RunKeeps(ss, steps, k);
    var s := ss[k];
    forall t | t in s.list && t != s.ckpt
      ensures t in s.threads && s.threads[t].state == Suspended && Held(s.threads[t].frames) == InWait
    {
      StoppedInList(s, t);
    }
  }

  lemma StoppedInList(s: System, t: Tid)
    requires Inv(s) && s.pc == Quiet && t in s.list && t != s.ckpt
    ensures t in s.threads && s.threads[t].state == Suspended && Held(s.threads[t].frames) == InWait
  {
    var j :| 0 <= j < |s.list| && s.list[j] == t;
    assert Stopped(s.threads, s.ckpt, s.list[j]);
  }

  // No run aborts: the swaps that the source guards with mtcp_abort always succeed, and mtcp_ok and mtcp_no never
  // meet a state they do not expect.
  lemma NoAbort(ss: seq<System>, steps: seq<Step>, k: nat)
    requires Run(ss, steps) && k < |ss|
    ensures !ss[k].aborted
    ensures ss[k].pc.Resume? ==> Enabled(ss[k], Ckpt) && !Apply(ss[k], Ckpt).aborted
    ensures forall t :: Listed(ss[k], t) && ss[k].threads[t].frames.Push? && ss[k].threads[t].frames.top == Saving ==>
              ss[k].threads[t].state == SuspInProg
  {
    RunKeeps(ss, steps, k);
    CkptKeeps(ss[k]);
    forall t | Listed(ss[k], t)
      ensures Good(ss[k].threads[t])
    {
      var i :| 0 <= i < |ss[k].list| && ss[k].list[i] == t;
      Entry(ss[k], i);
    }
  }

  lemma QuietStep(s: System, step: Step)
    requires !s.aborted && s.pc == Quiet && Enabled(s, step)
    ensures Apply(s, step).store.frozen == s.store.frozen
  {
    if step == Ckpt { CkptFrozen(s); } else { OthersLeavePc(s, step); }
  }

  lemma OthersLeavePc(s: System, step: Step)
    requires !s.aborted && Enabled(s, step) && step != Ckpt
    ensures Apply(s, step).pc == s.pc && Apply(s, step).store.frozen == s.store.frozen
  {
    hide Enabled, HandlerStep, CallStep, CkptStep, Listed, InUserCode, NeedsLock, Remove;
  }

  // What a step of the checkpoint thread leaves alone: what thread t is doing, and `frozen` unless the step arrives at
  // Quiet.
  ghost predicate Aside(s: System, s': System, t: Tid) {
    && (t in s.threads ==> t in s'.threads && s'.threads[t] == s.threads[t].(state := s'.threads[t].state))
    && s'.store == if s'.pc == Quiet then Begin(s.store) else s.store
  }

  lemma NextAside(s: System, i: nat, t: Tid)
    ensures Aside(s, ProbeNext(s, i), t) && Aside(s, ResumeNext(s, i), t) && ResumeNext(s, i).pc != Quiet
  {
  }

  lemma ArmsAside(s: System, i: nat, t: Tid)
    requires s.pc != Quiet && i < |s.list| && s.list[i] in s.threads
    ensures Aside(s, ProbeStep(s, i), t)
    ensures Aside(s, LookStep(s, i, s.threads[s.list[i]].state), t)
  {
    NextAside(s, i + 1, t);
    hide ProbeNext, Remove;
  }

  lemma SignalAside(s: System, i: nat, t: Tid)
    requires s.pc != Quiet && i < |s.list| && s.list[i] in s.threads
    ensures Aside(s, SignalStep(s, i), t)
  {
    NextAside(s.(needRescan := true), i + 1, t);
    hide ProbeNext, Remove;
  }

  lemma SwapsAside(s: System, i: nat, x: Tid, t: Tid)
    requires s.pc != Quiet && x in s.threads
    ensures Aside(s, SwapEnabledStep(s, i, x), t)
    ensures Aside(s, SwapDisabledStep(s, i, x), t)
  {
    var s' := s.(threads := s.threads[x := Swap(s.threads[x], SigDisabled, RunDisabled)], needRescan := true);
    NextAside(s', i + 1, t);
    hide ProbeNext;
  }

  lemma ResumeAside(s: System, i: nat, x: Tid, t: Tid)
    requires s.pc != Quiet && x in s.threads
    ensures Aside(s, ResumeStep(s, i, x), t)
  {
    NextAside(s, i + 1, t);
    NextAside(s.(threads := s.threads[x := Swap(s.threads[x], RunEnabled, Suspended)]), i + 1, t);
    hide ResumeNext;
  }

  lemma CkptAside(s: System, t: Tid)
    requires Enabled(s, Ckpt)
    ensures Aside(s, CkptStep(s), t)
    ensures s.pc == Quiet ==> CkptStep(s).store == s.store
  {
    hide ProbeStep, SignalStep, LookStep, SwapEnabledStep, SwapDisabledStep, ResumeStep, ProbeNext, ResumeNext, Aside;
    if Locked(s.pc) {
      ArmsAside(s, s.pc.i, t);
      SignalAside(s, s.pc.i, t);
      SwapsAside(s, s.pc.i, s.list[s.pc.i], t);
      ResumeAside(s, s.pc.i, s.list[s.pc.i], t);
    }
    else {
      CkptOutside(s, t);
    }
  }

  lemma CkptOutside(s: System, t: Tid)
    requires Enabled(s, Ckpt) && !Locked(s.pc)
    ensures Aside(s, CkptStep(s), t)
    ensures s.pc == Quiet ==> CkptStep(s).store == s.store
  {
  }

  lemma CkptFrozen(s: System)
    requires Enabled(s, Ckpt)
    ensures s.pc == Quiet ==> CkptStep(s).store == s.store
    ensures s.pc != Quiet && CkptStep(s).pc == Quiet ==> CkptStep(s).store == Begin(s.store)
  {
    hide CkptStep;
    CkptAside(s, 0);
  }

  // ------------------------------------------------------------------ who is listed

  lemma NextLists(s: System, i: nat)
    ensures ProbeNext(s, i).list == s.list && ResumeNext(s, i).list == s.list
    ensures ProbeNext(s, i).ckpt == s.ckpt && ResumeNext(s, i).ckpt == s.ckpt
  {
  }

  lemma DropsTheDead(s: System, i: nat, t: Tid)
    requires i < |s.list| && s.list[i] in s.threads && Listed(s, t)
    ensures ProbeStep(s, i).ckpt == s.ckpt && t in ProbeStep(s, i).list
    ensures SignalStep(s, i).ckpt == s.ckpt && t in SignalStep(s, i).list
  {
    DropsOnly(s, i);
    NextLists(s.(needRescan := true), i + 1);
    hide ProbeNext;
  }

  lemma DropsOnly(s: System, i: nat)
    requires i < |s.list| && s.list[i] in s.threads
    ensures ProbeStep(s, i).ckpt == s.ckpt && forall x :: x in ProbeStep(s, i).list ==> x in s.list
    ensures SignalStep(s, i).ckpt == s.ckpt && forall x :: x in SignalStep(s, i).list ==> x in s.list
  {
    NextLists(s.(needRescan := true), i + 1);
    hide ProbeNext;
  }

  lemma SwapsKeepList(s: System, i: nat, x: Tid)
    requires x in s.threads
    ensures SwapDisabledStep(s, i, x).list == s.list && SwapDisabledStep(s, i, x).ckpt == s.ckpt
    ensures SwapEnabledStep(s, i, x).list == s.list && SwapEnabledStep(s, i, x).ckpt == s.ckpt
    ensures ResumeStep(s, i, x).list == s.list && ResumeStep(s, i, x).ckpt == s.ckpt
    ensures LookStep(s, i, s.threads[x].state).list == s.list && LookStep(s, i, s.threads[x].state).ckpt == s.ckpt
  {
    NextLists(s, i + 1);
    NextLists(s.(threads := s.threads[x := Swap(s.threads[x], SigDisabled, RunDisabled)], needRescan := true), i + 1);
    NextLists(s.(threads := s.threads[x := Swap(s.threads[x], RunEnabled, Suspended)]), i + 1);
    hide ProbeNext, ResumeNext;
  }

  lemma CkptKeepsListed(s: System, t: Tid)
    requires Enabled(s, Ckpt) && Listed(s, t)
    ensures t in CkptStep(s).list && CkptStep(s).ckpt == s.ckpt
  {
    if Locked(s.pc) {
      DropsTheDead(s, s.pc.i, t);
      SwapsKeepList(s, s.pc.i, s.list[s.pc.i]);
    } else {
      NextLists(s.(needRescan := false), 0);
      NextLists(s, 0);
    }
    hide ProbeStep, SignalStep, LookStep, SwapEnabledStep, SwapDisabledStep, ResumeStep, ProbeNext, ResumeNext;
  }

  // Only a thread that ends or vanishes leaves the list.
  lemma StaysListed(s: System, step: Step, t: Tid)
    requires Inv(s) && Enabled(s, step) && Listed(s, t) && step != Finish(t) && step != Vanish(t)
    ensures Inv(Apply(s, step)) && Listed(Apply(s, step), t)
  {
    StepKeeps(s, step);
    if step == Ckpt {
      CkptKeepsListed(s, t);
      CkptAside(s, t);
    } else if step.InHandler? && step.t == t {
      GoodOne(s, t);
      HandlerKeeps(s.threads[t], step.holdsLocks);
    } else if step == InCall(t) {
      GoodOne(s, t);
      CallKeeps(s.threads[t]);
    }
    hide Inv, Good, HandlerStep, CallStep, CkptStep, NeedsLock, InUserCode;
  }

  lemma GoodOne(s: System, t: Tid)
    requires Inv(s) && Listed(s, t)
    ensures Good(s.threads[t])
  {
    var i :| 0 <= i < |s.list| && s.list[i] == t;
    Entry(s, i);
  }

  // ------------------------------------------------------------------ the image

  // Memory changes by writes of user code and in no other way.
  lemma MemoryMoves(s: System, step: Step)
    requires !s.aborted && Enabled(s, step)
    ensures Apply(s, step).store.mem == if step.Write? then s.store.mem[step.a := step.v] else s.store.mem
  {
    if step == Ckpt { CkptAside(s, 0); }
    hide Enabled, HandlerStep, CallStep, CkptStep, Listed, InUserCode, NeedsLock, Remove;
  }

  lemma {:induction false} QuietStretch(ss: seq<System>, steps: seq<Step>, j: nat, k: nat)
    requires Run(ss, steps) && j <= k < |ss|
    requires forall i :: j <= i <= k ==> ss[i].pc == Quiet
    ensures ss[k].store.frozen == ss[j].store.frozen
    decreases k
  {
    if j < k {
      QuietStretch(ss, steps, j, k - 1);
      RunKeeps(ss, steps, k - 1);
      hide Inv, Apply, Enabled;
      QuietStep(ss[k - 1], steps[k - 1]);
    }
  }

  // The image is complete when every word and every listed state has been written.
  predicate ImageDone(s: System) {
    s.store.image.Keys == s.store.mem.Keys && forall t :: t in s.list && t != s.ckpt ==> t in s.store.saved
  }

  // The image is a consistent snapshot: however long it takes to write and in whatever order, once complete it holds
  // the memory as it was in the step that left the rescan loop, and every listed thread as suspended.
  lemma Snapshot(ss: seq<System>, steps: seq<Step>, j: nat, k: nat)
    requires Run(ss, steps) && j < k < |ss|
    requires ss[j].pc != Quiet && forall i :: j < i <= k ==> ss[i].pc == Quiet
    requires ImageDone(ss[k])
    ensures ss[k].store.image == ss[j].store.mem == ss[k].store.mem
    ensures forall t :: t in ss[k].list && t != ss[k].ckpt ==>
              t in ss[k].store.saved && ss[k].store.saved[t] == Suspended
  {
    hide Inv, ImageDone, Apply, Enabled;
    QuietStretch(ss, steps, j + 1, k);
    RunKeeps(ss, steps, j);
    RunKeeps(ss, steps, k);
    QuietEntry(ss[j], steps[j]);
    Complete(ss[k]);
  }

  lemma Complete(s: System)
    requires Inv(s) && s.pc == Quiet && ImageDone(s)
    ensures s.store.image == s.store.mem == s.store.frozen
    ensures forall t :: t in s.list && t != s.ckpt ==> t in s.store.saved && s.store.saved[t] == Suspended
  {
    hide Members, AllStopped;
    assert s.store.image == s.store.mem;
  }

  lemma QuietEntry(s: System, step: Step)
    requires !s.aborted && s.pc != Quiet && Enabled(s, step) && Apply(s, step).pc == Quiet
    ensures Apply(s, step).store == Begin(s.store)
  {
    if step == Ckpt { CkptFrozen(s); } else { OthersLeavePc(s, step); }
  }

  // ------------------------------------------------------------------ mtcp_no

  // One step while a thread has checkpointing disabled by mtcp_no.
  lemma OffStep(s: System, step: Step, t: Tid)
    requires !s.aborted && Enabled(s, step) && t in s.threads && s.threads[t].base == User(true)
    requires step != CallOk(t) && step != CallNo(t)
    ensures t in Apply(s, step).threads && Apply(s, step).threads[t].base == User(true)
  {
    if step == Ckpt { CkptBases(s, t); }
    else if step == InCall(t) { assert false; }
    else {
      if step.InHandler? && step.t == t { OffHandler(s.threads[t], step.holdsLocks); }
      hide HandlerStep, CallStep, CkptStep, InUserCode, NeedsLock, Remove;
    }
  }

  lemma OffHandler(th: Thread, holdsLocks: bool)
    requires th.frames.Push? && th.base == User(true)
    ensures HandlerStep(th, holdsLocks).Go? ==> HandlerStep(th, holdsLocks).thread.base == User(true)
  {
  }

  lemma CkptBases(s: System, t: Tid)
    requires Enabled(s, Ckpt) && t in s.threads
    ensures t in CkptStep(s).threads && CkptStep(s).threads[t].base == s.threads[t].base
  {
    hide CkptStep;
    CkptAside(s, t);
  }

  // From a return of mtcp_no to the thread's next call of mtcp_ok (or mtcp_no), the thread is never suspended nor
  // saved: its state word only takes the two disabled values, its handlers return without effect, and no image is
  // being written as long as it is listed.
  lemma {:induction false} NeverWhileOff(ss: seq<System>, steps: seq<Step>, t: Tid, a: nat, k: nat)
    requires Run(ss, steps) && a <= k < |ss|
    requires t in ss[a].threads && ss[a].threads[t].base == User(true)
    requires forall i :: a <= i < k ==> steps[i] != CallOk(t) && steps[i] != CallNo(t)
    ensures t in ss[k].threads && ss[k].threads[t].base == User(true)
    ensures t in ss[k].list && t != ss[k].ckpt ==>
              && (ss[k].threads[t].state == RunDisabled || ss[k].threads[t].state == SigDisabled)
              && Idle(ss[k].threads[t].frames)
              && ss[k].pc != Quiet
    decreases k
  {
    RunKeeps(ss, steps, k);
    if a < k {
      NeverWhileOff(ss, steps, t, a, k - 1);
      RunKeeps(ss, steps, k - 1);
      OffNext(ss, steps, t, k - 1);
    }
    if t in ss[k].list && t != ss[k].ckpt { OffState(ss[k], t); }
  }

  lemma OffNext(ss: seq<System>, steps: seq<Step>, t: Tid, i: nat)
    requires Run(ss, steps) && i < |steps| && Inv(ss[i])
    requires t in ss[i].threads && ss[i].threads[t].base == User(true)
    requires steps[i] != CallOk(t) && steps[i] != CallNo(t)
    ensures t in ss[i + 1].threads && ss[i + 1].threads[t].base == User(true)
  {
    hide Inv, Apply, Enabled;
    OffStep(ss[i], steps[i], t);
  }

  lemma OffState(s: System, t: Tid)
    requires Inv(s) && t in s.list && t != s.ckpt && t in s.threads && s.threads[t].base == User(true)
    ensures s.threads[t].state == RunDisabled || s.threads[t].state == SigDisabled
    ensures Idle(s.threads[t].frames) && s.pc != Quiet
  {
    var i :| 0 <= i < |s.list| && s.list[i] == t;
    Entry(s, i);
    if s.pc == Quiet { StoppedInList(s, t); }
  }
}
