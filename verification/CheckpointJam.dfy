/** How the state word of a thread may change in a run of MTCP's checkpoint protocol, that mtcp_ok, mtcp_no and the
    resume loop do what they are for, and the one way in which the protocol can get stuck. */
module CheckpointJam {
  import opened Checkpoint
  import opened CheckpointRuns
  import opened CheckpointLive

  // ------------------------------------------------------------------ the state diagram

  // How the checkpoint thread changes a state word.
  predicate FromOutside(old': State, new': State) {
    || (old' == RunDisabled && new' == SigDisabled)
    || (old' == RunEnabled && new' == SigEnabled)
    || (old' == Suspended && new' == RunEnabled)
  }

  // How stopthisthread does, and how mtcp_ok and mtcp_no do.
  predicate InStop(old': State, new': State) {
    || (old' == RunEnabled && new' == SigEnabled)
    || (old' == SigEnabled && new' == SuspInProg)
    || (old' == SuspInProg && new' == Suspended)
  }

  predicate InCalls(base: Base, old': State, new': State) {
    if InOk(base) then (old' == RunDisabled && new' == RunEnabled) || (old' == SigDisabled && new' == SigEnabled)
    else old' == RunEnabled && new' == RunDisabled
  }

  lemma NextThreads(s: System, i: nat)
    ensures ProbeNext(s, i).threads == s.threads && ResumeNext(s, i).threads == s.threads
  {
  }

  lemma ScanEdges(s: System, i: nat, x: Tid)
    requires i < |s.list| && s.list[i] in s.threads && x in s.threads
    ensures ProbeStep(s, i).threads == s.threads && SignalStep(s, i).threads == s.threads
    ensures LookStep(s, i, s.threads[s.list[i]].state).threads == s.threads
  {
    NextThreads(s, i + 1);
    NextThreads(s.(needRescan := true), i + 1);
    hide ProbeNext, ResumeNext, Remove;
  }

  lemma SwapEdges(s: System, i: nat, x: Tid, t: Tid)
    requires x in s.threads && t in s.threads
    ensures t in SwapDisabledStep(s, i, x).threads && t in SwapEnabledStep(s, i, x).threads
    ensures var y := SwapDisabledStep(s, i, x).threads[t].state;
            y == s.threads[t].state || FromOutside(s.threads[t].state, y)
    ensures var y := SwapEnabledStep(s, i, x).threads[t].state;
            y == s.threads[t].state || FromOutside(s.threads[t].state, y)
  {
    NextThreads(s.(threads := s.threads[x := Swap(s.threads[x], SigDisabled, RunDisabled)], needRescan := true), i + 1);
    hide ProbeNext;
  }

  lemma ResumeEdges(s: System, i: nat, x: Tid, t: Tid)
    requires x in s.threads && t in s.threads
    ensures t in ResumeStep(s, i, x).threads
    ensures var y := ResumeStep(s, i, x).threads[t].state;
            y == s.threads[t].state || FromOutside(s.threads[t].state, y)
  {
    NextThreads(s, i + 1);
    NextThreads(s.(threads := s.threads[x := Swap(s.threads[x], RunEnabled, Suspended)]), i + 1);
    hide ResumeNext;
  }

  lemma CkptEdges(s: System, t: Tid)
    requires Enabled(s, Ckpt) && t in s.threads
    ensures t in CkptStep(s).threads
    ensures var y := CkptStep(s).threads[t].state; y == s.threads[t].state || FromOutside(s.threads[t].state, y)
  {
    if Locked(s.pc) {
      ScanEdges(s, s.pc.i, t);
      SwapEdges(s, s.pc.i, s.list[s.pc.i], t);
      ResumeEdges(s, s.pc.i, s.list[s.pc.i], t);
    } else {
      NextThreads(s.(needRescan := false), 0);
      NextThreads(s, 0);
    }
    hide ProbeStep, SignalStep, LookStep, SwapEnabledStep, SwapDisabledStep, ResumeStep, ProbeNext, ResumeNext;
  }

  lemma OwnEdges(th: Thread, holdsLocks: bool)
    ensures th.frames.Push? && HandlerStep(th, holdsLocks).Go? ==>
              var y := HandlerStep(th, holdsLocks).thread.state; y == th.state || InStop(th.state, y)
    ensures th.frames.Empty? && !th.base.User? && CallStep(th).Go? ==>
              var y := CallStep(th).thread.state; y == th.state || InCalls(th.base, th.state, y)
  {
  }

  // Every change of the state word of a listed thread is one of these.
  lemma StateDiagram(ss: seq<System>, steps: seq<Step>, k: nat, t: Tid)
    requires Run(ss, steps) && k < |steps| && t in ss[k].threads
    ensures t in ss[k + 1].threads
    ensures var x, y := ss[k].threads[t].state, ss[k + 1].threads[t].state;
            || x == y
            || (steps[k] == Ckpt && FromOutside(x, y))
            || (steps[k].InHandler? && steps[k].t == t && InStop(x, y))
            || (steps[k] == InCall(t) && InCalls(ss[k].threads[t].base, x, y))
  {
    var s, step := ss[k], steps[k];
    if step == Ckpt {
      CkptEdges(s, t);
    } else if (step.InHandler? || step.InCall?) && step.t == t {
      OwnEdges(s.threads[t], step.InHandler? && step.holdsLocks);
    }
    hide HandlerStep, CallStep, CkptStep, InUserCode, NeedsLock, Remove, FromOutside, InStop, InCalls, Init;
  }

  // A handler that marks its thread itself asks next whether the thread holds locks.
  lemma AsksForLocks(ss: seq<System>, steps: seq<Step>, k: nat, t: Tid)
    requires Run(ss, steps) && k < |steps| && steps[k].InHandler? && steps[k].t == t
    requires t in ss[k].threads && t in ss[k + 1].threads
    requires ss[k].threads[t].state == RunEnabled && ss[k + 1].threads[t].state != RunEnabled
    ensures ss[k + 1].threads[t].state == SigEnabled
    ensures ss[k + 1].threads[t].frames == Push(Locks, ss[k].threads[t].frames.under)
  {
    hide CkptStep, CallStep, Init;
  }

  // A handler that has been told that its thread holds locks returns at once, and leaves the thread marked.
  lemma HoldingLocks(ss: seq<System>, steps: seq<Step>, k: nat, t: Tid)
    requires Run(ss, steps) && k < |steps| && steps[k] == InHandler(t, true)
    requires t in ss[k].threads && ss[k].threads[t].frames.Push? && ss[k].threads[t].frames.top == Locks
    ensures t in ss[k + 1].threads && ss[k + 1].threads[t].frames == ss[k].threads[t].frames.under
    ensures ss[k + 1].threads[t].state == ss[k].threads[t].state
  {
    hide CkptStep, CallStep, Init;
  }

  // Who is on the list: a thread that is created joins it, one that ends leaves it, and the checkpoint thread takes off
  // those that have vanished and no others. Memory changes by writes of user code only.
  lemma ListDiagram(ss: seq<System>, steps: seq<Step>, k: nat)
    requires Run(ss, steps) && k < |steps|
    ensures ss[k + 1].ckpt == ss[k].ckpt
    ensures forall t :: t in ss[k + 1].list && t !in ss[k].list ==> steps[k].Create? && steps[k].child == t
    ensures forall t :: t in ss[k].list && t !in ss[k + 1].list ==>
              steps[k] == Finish(t) || (steps[k] == Ckpt && t in ss[k].threads && !ss[k].threads[t].alive)
    ensures steps[k].Create? ==>
              var child := steps[k].child;
              child in ss[k + 1].list && child in ss[k + 1].threads && ss[k + 1].threads[child].state == RunDisabled
    ensures steps[k].Finish? ==> steps[k].t !in ss[k + 1].list
    ensures ss[k + 1].store.mem ==
            if steps[k].Write? then ss[k].store.mem[steps[k].a := steps[k].v] else ss[k].store.mem
  {
    var s, step := ss[k], steps[k];
    RunKeeps(ss, steps, k);
    MemoryMoves(s, step);
    forall t | t in s.list && t !in Apply(s, step).list
      ensures step == Finish(t) || (step == Ckpt && t in s.threads && !s.threads[t].alive)
    {
      if Listed(s, t) { Stays(s, step, t); } else { OffList(s, step, t); }
    }
    if step == Ckpt { CkptList(s); } else { OthersList(s, step); }
    hide Inv, Apply, Enabled, Init;
  }

  lemma Stays(s: System, step: Step, t: Tid)
    requires Inv(s) && Enabled(s, step) && Listed(s, t) && t !in Apply(s, step).list
    ensures step == Finish(t)
  {
    if step != Vanish(t) && step != Finish(t) { StaysListed(s, step, t); }
    hide Inv, HandlerStep, CallStep, CkptStep, NeedsLock, InUserCode;
  }

  lemma OffList(s: System, step: Step, t: Tid)
    requires Inv(s) && Enabled(s, step) && !Listed(s, t) && t in s.list && t !in Apply(s, step).list
    ensures step == Ckpt && t in s.threads && !s.threads[t].alive
  {
    StepKeeps(s, step);
    hide HandlerStep, CallStep, CkptStep, NeedsLock, InUserCode, Good;
  }

  lemma OthersList(s: System, step: Step)
    requires Inv(s) && Enabled(s, step) && step != Ckpt
    ensures Apply(s, step).ckpt == s.ckpt
    ensures forall t :: t in Apply(s, step).list && t !in s.list ==> step.Create? && step.child == t
    ensures step.Create? ==>
              step.child in Apply(s, step).list && Apply(s, step).threads[step.child].state == RunDisabled
    ensures step.Finish? ==> step.t !in Apply(s, step).list
  {
    if step.Finish? { RemoveDistinct(s.list, step.t); }
    hide Good, HandlerStep, CallStep, CkptStep, NeedsLock, InUserCode;
  }

  // ------------------------------------------------------------------ mtcp_ok, mtcp_no and the resume loop

  lemma BaseMoves(th: Thread, holdsLocks: bool)
    ensures th.frames.Push? && HandlerStep(th, holdsLocks).Go? && HandlerStep(th, holdsLocks).thread.base != th.base ==>
              HandlerStep(th, holdsLocks).thread.base == if th.base == OkStop then User(false) else NoRead
    ensures th.frames.Empty? && InOk(th.base) && CallStep(th).Go? && CallStep(th).thread.base.User? ==>
              CallStep(th).thread.base == User(false)
    ensures th.frames.Empty? && !th.base.User? && !InOk(th.base) ==>
              CallStep(th).Go? && CallStep(th).thread.base.User? ==> CallStep(th).thread.base == User(true)
  {
  }

  lemma CallEnds(s: System, step: Step, t: Tid)
    requires !s.aborted && Enabled(s, step) && t in s.threads && !s.threads[t].base.User?
    requires t in Apply(s, step).threads && Apply(s, step).threads[t].base.User? && !Apply(s, step).aborted
    ensures Apply(s, step).threads[t].base == User(!InOk(s.threads[t].base))
  {
    if step == Ckpt {
      CkptBases(s, t);
    } else if (step.InHandler? || step.InCall?) && step.t == t {
      BaseMoves(s.threads[t], step.InHandler? && step.holdsLocks);
    }
    hide HandlerStep, CallStep, CkptStep, NeedsLock, Remove;
  }

  // When mtcp_ok returns, checkpointing is enabled; when mtcp_no returns, it is disabled.
  lemma CallsWork(ss: seq<System>, steps: seq<Step>, k: nat, t: Tid)
    requires Run(ss, steps) && k < |steps| && t in ss[k].threads && t in ss[k + 1].list && t != ss[k + 1].ckpt
    requires !ss[k].threads[t].base.User? && t in ss[k + 1].threads && ss[k + 1].threads[t].base.User?
    ensures var y := ss[k + 1].threads[t].state;
            if InOk(ss[k].threads[t].base) then y != RunDisabled && y != SigDisabled
            else y == RunDisabled || y == SigDisabled
  {
    RunKeeps(ss, steps, k + 1);
    CallEnds(ss[k], steps[k], t);
    var i :| 0 <= i < |ss[k + 1].list| && ss[k + 1].list[i] == t;
    Entry(ss[k + 1], i);
  }

  ghost predicate Moves(ss: seq<System>, steps: seq<Step>) {
    && |ss| == |steps| + 1
    && forall i :: 0 <= i < |steps| ==>
         !ss[i].aborted && Enabled(ss[i], steps[i]) && ss[i + 1] == Apply(ss[i], steps[i])
  }

  function With(s: System, t: Tid, state: State, base: Base): System
    requires t in s.threads
  {
    s.(threads := s.threads[t := s.threads[t].(state := state, base := base)])
  }

  lemma OneMove(s: System, t: Tid, step: Step, state: State, base: Base)
    requires !s.aborted && Listed(s, t) && s.threads[t].frames.Empty? && !Locked(s.pc)
    requires || (step == InCall(t) && !s.threads[t].base.User?
                 && CallStep(s.threads[t]) == Go(s.threads[t].(state := state, base := base)))
             || (step == CallOk(t) && InUserCode(s.threads[t]) && state == s.threads[t].state && base == OkEnter)
             || (step == CallNo(t) && InUserCode(s.threads[t]) && state == s.threads[t].state && base == NoEnter)
    ensures Enabled(s, step) && Apply(s, step) == With(s, t, state, base) && Listed(With(s, t, state, base), t)
  {
    hide CallStep, HandlerStep, CkptStep;
  }

  // A thread that calls mtcp_no, or mtcp_ok, while the lock is free and nobody interferes, has checkpointing disabled,
  // or enabled, after three instructions, and nothing else has changed.
  lemma Calls(s: System, t: Tid, on: bool) returns (ss: seq<System>)
    requires !s.aborted && Listed(s, t) && InUserCode(s.threads[t]) && !Locked(s.pc)
    requires s.threads[t].state == if on then RunDisabled else RunEnabled
    ensures Moves(ss, [if on then CallOk(t) else CallNo(t), InCall(t), InCall(t), InCall(t)]) && ss[0] == s
    ensures ss[4] == s.(threads := s.threads[t := s.threads[t].(state := if on then RunEnabled else RunDisabled,
                                                                base := User(!on))])
  {
    var x := s.threads[t].state;
    var y := if on then RunEnabled else RunDisabled;
    var s1 := With(s, t, x, if on then OkEnter else NoEnter);
    var s2 := With(s1, t, x, if on then OkRead else NoRead);
    var s3 := With(s2, t, x, if on then OkSwap(RunDisabled) else NoSwap);
    var s4 := With(s3, t, y, User(!on));
    OneMove(s, t, if on then CallOk(t) else CallNo(t), x, if on then OkEnter else NoEnter);
    OneMove(s1, t, InCall(t), x, if on then OkRead else NoRead);
    OneMove(s2, t, InCall(t), x, if on then OkSwap(RunDisabled) else NoSwap);
    OneMove(s3, t, InCall(t), y, User(!on));
    ss := [s, s1, s2, s3, s4];
    hide Enabled, Apply;
  }

  // A step of the resume loop takes the thread that it has come to from suspended to running, and goes on to the next.
  lemma Releases(ss: seq<System>, steps: seq<Step>, k: nat)
    requires Run(ss, steps) && k < |steps| && steps[k] == Ckpt && ss[k].pc.Resume?
    ensures ss[k].pc.i < |ss[k].list| && ss[k + 1].list == ss[k].list && ss[k + 1].ckpt == ss[k].ckpt
    ensures ss[k + 1].pc == if ss[k].pc.i + 1 == |ss[k].list| then Sleep else Resume(ss[k].pc.i + 1)
    ensures var t := ss[k].list[ss[k].pc.i];
            t != ss[k].ckpt ==> && t in ss[k].threads && ss[k].threads[t].state == Suspended
                                && t in ss[k + 1].threads && ss[k + 1].threads[t].state == RunEnabled
  {
    RunKeeps(ss, steps, k);
    var s := ss[k];
    Entry(s, s.pc.i);
    assert Stopped(s.threads, s.ckpt, s.list[s.pc.i]);
    hide Good, Members;
  }

  // In step m thread t is let go.
  predicate Freed(ss: seq<System>, m: nat, t: Tid) {
    && m + 1 < |ss| && t in ss[m].threads && ss[m].threads[t].state == Suspended
    && t in ss[m + 1].threads && ss[m + 1].threads[t].state == RunEnabled
  }

  ghost predicate FreedBetween(ss: seq<System>, j: nat, k: nat, t: Tid) {
    exists m :: j <= m < k && Freed(ss, m, t)
  }

  ghost predicate FreedUpTo(ss: seq<System>, j: nat, k: nat, list: seq<Tid>, ckpt: Tid, n: nat) {
    forall i {:trigger list[i]} :: 0 <= i < n && i < |list| && list[i] != ckpt ==> FreedBetween(ss, j, k, list[i])
  }

  lemma StepInResume(s: System, step: Step)
    requires !s.aborted && Enabled(s, step) && step != Ckpt && (s.pc == Quiet || s.pc.Resume?)
    requires Inv(s)
    ensures Apply(s, step).pc == s.pc && Apply(s, step).list == s.list && Apply(s, step).ckpt == s.ckpt
  {
    OthersLeavePc(s, step);
    match step
    case Create(t, _) => if s.pc == Quiet { QuietUsers(s, t); }
    case Finish(t) => if s.pc == Quiet { QuietUsers(s, t); }
    case _ =>
  }

  // How far the resume loop has come.
  function Gone(pc: Pc, n: nat): nat {
    match pc
    case Quiet => 0
    case Resume(i) => i
    case _ => n
  }

  lemma FreedStep(ss: seq<System>, steps: seq<Step>, j: nat, k: nat, list: seq<Tid>, ckpt: Tid)
    requires Run(ss, steps) && j <= k < |steps| && ss[k].list == list && ss[k].ckpt == ckpt
    requires ss[k].pc == Quiet || ss[k].pc.Resume?
    requires FreedUpTo(ss, j, k, list, ckpt, Gone(ss[k].pc, |list|))
    ensures ss[k + 1].list == list && ss[k + 1].ckpt == ckpt
    ensures ss[k + 1].pc == Quiet || ss[k + 1].pc.Resume? || ss[k + 1].pc == Sleep
    ensures FreedUpTo(ss, j, k + 1, list, ckpt, Gone(ss[k + 1].pc, |list|))
  {
    RunKeeps(ss, steps, k);
    if steps[k] != Ckpt {
      StepInResume(ss[k], steps[k]);
    } else if ss[k].pc == Quiet {
      assert |list| > 0;
    } else {
      Releases(ss, steps, k);
      var t := list[ss[k].pc.i];
      if t != ckpt { assert Freed(ss, k, t); }
    }
    hide Inv, Apply, Enabled, Init, Freed;
    FreedLater(ss, j, k, list, ckpt, Gone(ss[k].pc, |list|));
  }

  lemma FreedLater(ss: seq<System>, j: nat, k: nat, list: seq<Tid>, ckpt: Tid, n: nat)
    requires FreedUpTo(ss, j, k, list, ckpt, n)
    ensures FreedUpTo(ss, j, k + 1, list, ckpt, n)
  {
    hide Freed;
    forall i | 0 <= i < n && i < |list| && list[i] != ckpt
      ensures FreedBetween(ss, j, k + 1, list[i])
    {
      assert FreedBetween(ss, j, k, list[i]);
    }
  }

  lemma {:induction false} FreedAlong(ss: seq<System>, steps: seq<Step>, j: nat, k: nat)
    requires Run(ss, steps) && j <= k < |ss| && ss[j].pc == Quiet
    requires forall i :: j < i < k ==> ss[i].pc == Quiet || ss[i].pc.Resume?
    ensures ss[k].list == ss[j].list && ss[k].ckpt == ss[j].ckpt
    ensures ss[k].pc == Quiet || ss[k].pc.Resume? || ss[k].pc == Sleep
    ensures FreedUpTo(ss, j, k, ss[j].list, ss[j].ckpt, Gone(ss[k].pc, |ss[j].list|))
    decreases k
  {
    hide Run, FreedUpTo;
    if j == k {
      NoneFreed(ss, j, ss[j].list, ss[j].ckpt);
    } else {
      FreedAlong(ss, steps, j, k - 1);
      RunLength(ss, steps);
      FreedStep(ss, steps, j, k - 1, ss[j].list, ss[j].ckpt);
    }
  }

  lemma RunLength(ss: seq<System>, steps: seq<Step>)
    requires Run(ss, steps)
    ensures |ss| == |steps| + 1
  {
  }

  lemma NoneFreed(ss: seq<System>, j: nat, list: seq<Tid>, ckpt: Tid)
    ensures FreedUpTo(ss, j, j, list, ckpt, 0)
  {
  }

  // Between the writing of an image and the next sleep every thread that was suspended for it is let go.
  lemma EverybodyFreed(ss: seq<System>, steps: seq<Step>, j: nat, k: nat, t: Tid)
    requires Run(ss, steps) && j < k < |ss| && ss[j].pc == Quiet && ss[k].pc == Sleep
    requires forall i :: j < i < k ==> ss[i].pc != Sleep && ss[i].pc != Rescan && !Scanning(ss[i].pc)
    requires t in ss[j].list && t != ss[j].ckpt
    ensures exists m :: j <= m < k && Freed(ss, m, t)
  {
    hide Run, Freed;
    FreedAlong(ss, steps, j, k);
    var i :| 0 <= i < |ss[j].list| && ss[j].list[i] == t;
    assert FreedBetween(ss, j, k, ss[j].list[i]);
  }

  // ------------------------------------------------------------------ the jam

  // The scan has come to a thread that is saving its context and is blocked.
  predicate Stuck(s: System) {
    && (s.pc.Probe? || s.pc.Look?) && s.pc.i < |s.list|
    && var t := s.list[s.pc.i];
       t in s.threads && s.threads[t].alive && s.threads[t].state == SuspInProg && Blocked(s.threads[t].frames)
  }

  lemma BlockedStays(th: Thread, holdsLocks: bool)
    requires th.state == SuspInProg && Blocked(th.frames) && !NeedsLock(th)
    ensures var o := HandlerStep(th, holdsLocks);
            o.Go? && o.thread.state == SuspInProg && Blocked(o.thread.frames) && o.thread.alive == th.alive
  {
  }

  // Nobody can do anything about it: the thread waits for the lock, and the checkpoint thread, which holds it, for the
  // thread.
  lemma StuckStays(s: System, step: Step)
    requires Stuck(s) && !s.aborted && Enabled(s, step)
    ensures Stuck(Apply(s, step))
  {
    var t := s.list[s.pc.i];
    if step.InHandler? && step.t == t { BlockedStays(s.threads[t], step.holdsLocks); }
    hide HandlerStep, CallStep, Remove;
  }

  lemma {:induction false} NeverPast(ss: seq<System>, steps: seq<Step>, j: nat, k: nat)
    requires Run(ss, steps) && j <= k < |ss| && Stuck(ss[j])
    ensures Stuck(ss[k]) && ss[k].pc != Quiet
    decreases k
  {
    hide Run, Stuck, Apply, Enabled;
    if j < k {
      NeverPast(ss, steps, j, k - 1);
      StepOf(ss, steps, k - 1);
      StuckStays(ss[k - 1], steps[k - 1]);
    }
    StuckPc(ss[k]);
  }

  lemma StuckPc(s: System)
    requires Stuck(s)
    ensures s.pc != Quiet
  {
  }

  lemma StepOf(ss: seq<System>, steps: seq<Step>, k: nat)
    requires Run(ss, steps) && k + 1 < |ss|
    ensures k < |steps| && !ss[k].aborted && Enabled(ss[k], steps[k]) && ss[k + 1] == Apply(ss[k], steps[k])
  {
  }

  // ------------------------------------------------------------------ who is bound to get there

  // As far as the scan is concerned, nothing has changed for the better.
  predicate Follows(th: Thread, th': Thread) {
    && th'.alive == th.alive && (Stops(th) ==> Stops(th'))
    && (th.alive && !Restarts(th) ==> !Restarts(th'))
  }

  lemma {:induction false} DoomFollows(s: System, s': System, i: nat)
    requires s'.list == s.list && Doom(s, i)
    requires forall j {:trigger s.list[j]} :: i <= j < |s.list| && s.list[j] in s.threads ==>
               s.list[j] in s'.threads && Follows(s.threads[s.list[j]], s'.threads[s.list[j]])
    ensures Doom(s', i)
    decreases |s.list| - i
  {
    hide Stops, Restarts;
    if !Stops(s.threads[s.list[i]]) { DoomFollows(s, s', i + 1); }
  }

  lemma HandlerFollows(th: Thread)
    requires Good(th) && th.frames.Push? && th.frames.top != Enter
    ensures var o := HandlerStep(th, false); o.Go? && Follows(th, o.thread)
  {
  }

  lemma CallFollows(th: Thread)
    requires Good(th) && th.frames.Empty? && !th.base.User? && th.base != OkEnter && th.base != NoEnter
    ensures var o := CallStep(th); o.Go? && Follows(th, o.thread)
  {
  }

  // An orderly step of a thread while the checkpoint thread has the lock.
  lemma OwnFollows(s: System, step: Step, t: Tid)
    requires Inv(s) && Locked(s.pc) && Enabled(s, step) && Orderly(s, step) && step != Ckpt && t in s.threads
    ensures var s' := Apply(s, step); t in s'.threads && Follows(s.threads[t], s'.threads[t])
    ensures Apply(s, step).list == s.list && Apply(s, step).pc == s.pc
  {
    if step.InHandler? {
      GoodOne(s, step.t);
      HandlerFollows(s.threads[step.t]);
    } else if step.InCall? {
      GoodOne(s, step.t);
      CallFollows(s.threads[step.t]);
    }
    hide Inv, Good, HandlerStep, CallStep, CkptStep;
  }

  lemma OwnKeepsJam(s: System, step: Step)
    requires Inv(s) && Jammed(s) && Enabled(s, step) && Orderly(s, step) && step != Ckpt
    ensures Jammed(Apply(s, step))
  {
    var s' := Apply(s, step);
    hide Inv, Apply, Orderly, Doom;
    assert Locked(s.pc);
    forall t | t in s.threads
      ensures s'.list == s.list && s'.pc == s.pc && t in s'.threads && Follows(s.threads[t], s'.threads[t])
    {
      OwnFollows(s, step, t);
    }
    var i := s.pc.i;
    if Doom(s, i) { DoomFollows(s, s', i); }
    if Doom(s, i + 1) { DoomFollows(s, s', i + 1); }
    if !s.threads[s.list[i]].alive { DeadStays(s, step, s.list[i]); }
    hide Follows, Stops, Restarts;
  }

  lemma DeadStays(s: System, step: Step, t: Tid)
    requires Inv(s) && Enabled(s, step) && Orderly(s, step) && step != Ckpt && t in s.threads && !s.threads[t].alive
    ensures t in Apply(s, step).threads && Apply(s, step).threads[t] == s.threads[t]
  {
    hide Inv, HandlerStep, CallStep, CkptStep;
  }

  lemma CkptKeepsJam(s: System)
    requires Inv(s) && Jammed(s)
    ensures Jammed(CkptStep(s))
  {
    var i := s.pc.i;
    Entry(s, i);
    SameBehind(s);
    DoomHere(s, i);
    NoneThere(s);
    var s' := CkptStep(s);
    if s'.list == s.list && s.list[i] in s'.threads { DoomHere(s', i); }
    hide Good, Members, Phase, Blocked, WillMark, Remove, Doom;
  }

  lemma {:induction false} JamStays(ss: seq<System>, steps: seq<Step>, k: nat)
    requires Path(ss, steps) && k < |ss| && Inv(ss[0]) && Jammed(ss[0])
    ensures Inv(ss[k]) && Jammed(ss[k])
    decreases k
  {
    if k > 0 {
      JamStays(ss, steps, k - 1);
      hide Inv, Jammed, Apply, Enabled, Orderly;
      StepKeeps(ss[k - 1], steps[k - 1]);
      if steps[k - 1] == Ckpt { CkptKeepsJam(ss[k - 1]); ApplyCkpt(ss[k - 1]); }
      else { OwnKeepsJam(ss[k - 1], steps[k - 1]); }
    }
  }

  lemma ApplyCkpt(s: System)
    requires !s.aborted && Enabled(s, Ckpt)
    ensures Apply(s, Ckpt) == CkptStep(s)
  {
  }

  // Exactly the jammed states are those from which no checkpoint can be completed without the program's help.
  lemma JammedExactly(ss: seq<System>, steps: seq<Step>, k: nat)
    requires Run(ss, steps) && k < |ss|
    ensures Jammed(ss[k]) <==> !exists done :: Leads(ss[k], done) && done.pc == Quiet
  {
    RunKeeps(ss, steps, k);
    hide Run, Inv;
    if Jammed(ss[k]) {
      forall done | Leads(ss[k], done)
        ensures done.pc != Quiet
      {
        var ss', steps' :| Path(ss', steps') && ss'[0] == ss[k] && ss'[|steps'|] == done;
        JamStays(ss', steps', |steps'|);
      }
    } else {
      hide Leads, Jammed;
      var done, after := CanComplete(ss, steps, k);
    }
  }

  // ------------------------------------------------------------------ how to stay clear of it

  predicate Clean(th: Thread) {
    Held(th.frames) == InSave ==> !Blocked(th.frames)
  }

  lemma CleanHandler(th: Thread, holdsLocks: bool)
    requires Good(th) && Clean(th) && th.frames.Push?
    ensures Clean(HandlerStep(th, holdsLocks).thread)
  {
  }

  ghost predicate AllClean(s: System) {
    forall t :: t in s.threads && t in s.list && t != s.ckpt ==> Clean(s.threads[t])
  }

  predicate Stray(s: System, step: Step) {
    step.Interrupt? && step.t in s.threads && Held(s.threads[step.t].frames) == InSave
  }

  lemma CkptClean(s: System)
    requires Inv(s) && AllClean(s)
    ensures AllClean(CkptStep(s))
  {
    CkptKeeps(s);
    var s' := CkptStep(s);
    CkptList(s);
    hide Inv, CkptStep, Clean, Members;
    forall t | t in s'.threads && t in s'.list && t != s'.ckpt
      ensures Clean(s'.threads[t])
    {
      CkptAside(s, t);
      CleanSame(s.threads[t], s'.threads[t]);
    }
  }

  lemma CleanSame(th: Thread, th': Thread)
    requires Clean(th) && th'.frames == th.frames
    ensures Clean(th')
  {
  }

  lemma CkptList(s: System)
    requires Inv(s)
    ensures CkptStep(s).ckpt == s.ckpt && forall t :: t in CkptStep(s).list ==> t in s.list && t in s.threads
  {
    CkptKeeps(s);
    if Locked(s.pc) {
      DropsOnly(s, s.pc.i);
      SwapsKeepList(s, s.pc.i, s.list[s.pc.i]);
    } else {
      NextLists(s.(needRescan := false), 0);
      NextLists(s, 0);
    }
    hide Inv, ProbeStep, SignalStep, LookStep, SwapEnabledStep, SwapDisabledStep, ResumeStep, ProbeNext, ResumeNext;
  }

  lemma CleanStep(s: System, step: Step)
    requires Inv(s) && AllClean(s) && Enabled(s, step) && !Stray(s, step)
    ensures AllClean(Apply(s, step))
  {
    if step == Ckpt {
      CkptClean(s);
    } else {
      if step.InHandler? {
        GoodOne(s, step.t);
        CleanHandler(s.threads[step.t], step.holdsLocks);
      }
      hide Inv, HandlerStep, CkptStep, Good;
    }
  }

  lemma {:induction false} CleanRun(ss: seq<System>, steps: seq<Step>, k: nat)
    requires Run(ss, steps) && k < |ss| && forall i :: 0 <= i < k ==> !Stray(ss[i], steps[i])
    ensures AllClean(ss[k])
    decreases k
  {
    if k > 0 {
      CleanRun(ss, steps, k - 1);
      RunKeeps(ss, steps, k - 1);
      hide Inv, AllClean, Apply, Enabled, Init, Stray;
      CleanStep(ss[k - 1], steps[k - 1]);
    }
  }

  // If no stop signal has interrupted a thread while it was saving its context, a checkpoint can be completed.
  lemma NotJammed(ss: seq<System>, steps: seq<Step>, k: nat)
    requires Run(ss, steps) && k < |ss| && forall i :: 0 <= i < k ==> !Stray(ss[i], steps[i])
    ensures !Jammed(ss[k])
  {
    CleanRun(ss, steps, k);
    RunKeeps(ss, steps, k);
    var s := ss[k];
    forall j {:trigger s.list[j]} | 0 <= j < |s.list|
      ensures s.list[j] in s.threads && !Stops(s.threads[s.list[j]])
    {
      Entry(s, j);
    }
    if Scanning(s.pc) {
      NoDoom(s, s.pc.i);
      NoDoom(s, s.pc.i + 1);
    }
    hide Run, Good, Doom;
  }

  lemma {:induction false} NoDoom(s: System, i: nat)
    requires forall j {:trigger s.list[j]} :: 0 <= j < |s.list| ==>
               s.list[j] in s.threads && !Stops(s.threads[s.list[j]])
    ensures !Doom(s, i)
    decreases |s.list| - i
  {
    if i < |s.list| { NoDoom(s, i + 1); }
  }

  // ------------------------------------------------------------------ concrete runs

  ghost predicate Reach(s: System) {
    exists ss, steps :: Run(ss, steps) && ss[|steps|] == s
  }

  lemma Extend(s: System, step: Step) returns (s': System)
    requires Reach(s) && !s.aborted && Enabled(s, step)
    ensures s' == Apply(s, step) && Reach(s')
  {
    var ss, steps :| Run(ss, steps) && ss[|steps|] == s;
    s' := Apply(s, step);
    hide Init, Apply, Enabled;
    var ss', steps' := ss + [s'], steps + [step];
    forall k | 0 <= k < |steps'|
      ensures !ss'[k].aborted && Enabled(ss'[k], steps'[k]) && ss'[k + 1] == Apply(ss'[k], steps'[k])
    {
      if k < |steps| { assert ss'[k] == ss[k] && ss'[k + 1] == ss[k + 1] && steps'[k] == steps[k]; }
    }
    assert Run(ss', steps');
  }

  // One thread besides the checkpoint thread, which has number 0.
  function Two(th: Thread, pc: Pc, needRescan: bool, store: Store): System {
    System(map[0 := Thread(CkpntThread, User(false), Empty, true), 1 := th], [1, 0], 0, pc, needRescan, false, store)
  }

  lemma Start(store: Store)
    ensures Init(Two(FRESH, Sleep, false, store)) && Reach(Two(FRESH, Sleep, false, store))
  {
    assert Run([Two(FRESH, Sleep, false, store)], []);
  }

  // The checkpoint thread finds thread 1 with checkpointing disabled, and marks it.
  lemma MarksIt(store: Store)
    ensures Reach(Two(Thread(SigDisabled, User(true), Empty, true), Rescan, true, store))
  {
    Start(store);
    hide Reach;
    var s := Extend(Two(FRESH, Sleep, false, store), Ckpt);
    s := Extend(s, Ckpt);
    assert s == Two(FRESH, Probe(0), false, store);
    s := Extend(s, Ckpt);
    s := Extend(s, Ckpt);
    assert s == Two(FRESH, SwapDisabled(0), false, store);
    s := Extend(s, Ckpt);
    assert s == Two(Thread(SigDisabled, User(true), Empty, true), Probe(1), true, store);
    s := Extend(s, Ckpt);
    s := Extend(s, Ckpt);
    assert s == Two(Thread(SigDisabled, User(true), Empty, true), Rescan, true, store);
  }

  // Thread 1 makes a step between two scans.
  lemma Turn(th: Thread, step: Step, th': Thread, store: Store)
    requires Reach(Two(th, Rescan, true, store)) && th.alive
    requires || (step == CallOk(1) && InUserCode(th) && th' == th.(base := OkEnter))
             || (step == InCall(1) && th.frames.Empty? && !th.base.User? && CallStep(th) == Go(th'))
             || (step == InHandler(1, false) && th.frames.Push? && HandlerStep(th, false) == Go(th'))
             || (step == Interrupt(1) && th' == th.(frames := Push(Enter, th.frames)))
    ensures Reach(Two(th', Rescan, true, store))
  {
    hide Reach, CallStep, HandlerStep, CkptStep;
    var s := Extend(Two(th, Rescan, true, store), step);
    assert s == Two(th', Rescan, true, store);
  }

  // Thread 1 calls mtcp_ok and is about to save its context.
  lemma SavesIt(store: Store)
    ensures Reach(Two(Thread(SuspInProg, OkStop, Push(Saving, Empty), true), Rescan, true, store))
  {
    MarksIt(store);
    hide Reach, Two;
    var a := Thread(SigDisabled, User(true), Empty, true);
    Turn(a, CallOk(1), a.(base := OkEnter), store);
    Turn(a.(base := OkEnter), InCall(1), a.(base := OkRead), store);
    Turn(a.(base := OkRead), InCall(1), a.(base := OkSwap(SigDisabled)), store);
    var b := Thread(SigEnabled, OkStop, Push(Enter, Empty), true);
    Turn(a.(base := OkSwap(SigDisabled)), InCall(1), b, store);
    Turn(b, InHandler(1, false), b.(frames := Push(Raise, Empty)), store);
    Turn(b.(frames := Push(Raise, Empty)), InHandler(1, false), b.(frames := Push(Commit, Empty)), store);
    Turn(b.(frames := Push(Commit, Empty)), InHandler(1, false),
         Thread(SuspInProg, OkStop, Push(Saving, Empty), true), store);
  }

  // A concrete jam: a stray stop signal arrives just then, and the checkpoint thread takes the lock for the next scan
  // before the handler gets it.
  lemma JamHappens(store: Store) returns (s: System)
    ensures Reach(s) && Stuck(s)
  {
    SavesIt(store);
    hide Reach;
    var th := Thread(SuspInProg, OkStop, Push(Saving, Empty), true);
    Turn(th, Interrupt(1), th.(frames := Push(Enter, th.frames)), store);
    s := Extend(Two(th.(frames := Push(Enter, th.frames)), Rescan, true, store), Ckpt);
    assert s == Two(Thread(SuspInProg, OkStop, Push(Enter, Push(Saving, Empty)), true), Probe(0), false, store);
  }

  lemma Along(s: System, s': System)
    requires Init(s) && Leads(s, s')
    ensures Reach(s')
  {
    var ss, steps :| Path(ss, steps) && ss[0] == s && ss[|steps|] == s';
    hide Init, Apply, Enabled, Orderly;
    assert Run(ss, steps);
  }

  lemma StartRun(store: Store)
    ensures var s := Two(FRESH, Sleep, false, store);
            Init(s) && Run([s], []) && Listed(s, 1) && !Jammed(s) && s.store == store
  {
  }

  // A run with a complete image of any memory and of a suspended thread, from which all sleep again.
  lemma CompletedRun(mem: map<nat, int>) returns (done: System, after: System)
    ensures Reach(done) && done.pc == Quiet && ImageDone(done) && done.store.image == mem
    ensures Listed(done, 1) && 1 in done.store.saved && done.store.saved[1] == Suspended
    ensures Leads(done, after) && after.pc == Sleep && 1 in after.threads && after.threads[1].state == RunEnabled
  {
    var store := Store(mem, map[], map[], map[]);
    var s := Two(FRESH, Sleep, false, store);
    StartRun(store);
    hide Run, Reach, Leads, Init, ImageDone, Two, Jammed;
    done, after := CanComplete([s], [], 0);
    Along(s, done);
  }
}
