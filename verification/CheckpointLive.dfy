/** That a checkpoint can be completed: from every reachable state of MTCP's protocol in which the scan is not jammed
    there are steps that lead to a complete image and back to sleep, with every thread resumed. The only way to be
    jammed is a stop signal that interrupts a thread in the middle of saving its context, while the checkpoint thread
    holds the lock that the interrupting handler asks for. */
module CheckpointLive {
  import opened Checkpoint
  import opened CheckpointRuns

  // ------------------------------------------------------------------ paths

  // Steps that the program need not be asked for: those of the checkpoint thread and of handlers and calls that have
  // been entered, the delivery of a signal to a thread that has been marked, and, of user code, only a call of mtcp_ok
  // by a thread whose last call was mtcp_no.
  predicate Orderly(s: System, step: Step) {
    match step
    case Ckpt => true
    case InHandler(_, holdsLocks) => !holdsLocks
    case InCall(_) => true
    case Interrupt(t) => t in s.threads && s.threads[t].state == SigEnabled
    case CallOk(t) => t in s.threads && s.threads[t].base == User(true)
    case Save(_) => true
    case SaveState(_) => true
    case _ => false
  }

  ghost predicate Path(ss: seq<System>, steps: seq<Step>) {
    && |ss| == |steps| + 1
    && forall i :: 0 <= i < |steps| ==>
         !ss[i].aborted && Enabled(ss[i], steps[i]) && Orderly(ss[i], steps[i]) && ss[i + 1] == Apply(ss[i], steps[i])
  }

  ghost predicate Leads(s: System, s': System) {
    exists ss, steps :: Path(ss, steps) && ss[0] == s && ss[|steps|] == s'
  }

  lemma Stay(s: System)
    ensures Leads(s, s)
  {
    assert Path([s], []);
  }

  lemma Join(a: System, b: System, c: System)
    requires Leads(a, b) && Leads(b, c)
    ensures Leads(a, c)
  {
    var ss, steps :| Path(ss, steps) && ss[0] == a && ss[|steps|] == b;
    var ss', steps' :| Path(ss', steps') && ss'[0] == b && ss'[|steps'|] == c;
    var n := |steps|;
    var all: seq<System>, way: seq<Step> := ss[..n] + ss', steps + steps';
    hide Enabled, Orderly, Apply;
    forall i | 0 <= i < |way|
      ensures !all[i].aborted && Enabled(all[i], way[i]) && Orderly(all[i], way[i])
      ensures all[i + 1] == Apply(all[i], way[i])
    {
      if i < n {
        assert all[i] == ss[i] && all[i + 1] == ss[i + 1] && way[i] == steps[i];
      } else {
        assert all[i] == ss'[i - n] && all[i + 1] == ss'[i - n + 1] && way[i] == steps'[i - n];
      }
    }
    assert Path(all, way);
  }

  lemma One(s: System, step: Step)
    requires Inv(s) && Enabled(s, step) && Orderly(s, step)
    ensures !s.aborted && Leads(s, Apply(s, step)) && Inv(Apply(s, step))
  {
    StepKeeps(s, step);
    hide Enabled, Orderly, Apply;
    assert Path([s, Apply(s, step)], [step]);
  }

  lemma OneCkpt(s: System) returns (s': System)
    requires Inv(s)
    ensures s.pc.Probe? || s.pc.Look? || s.pc.SwapDisabled? || s.pc.SwapEnabled? || s.pc.Signal? || s.pc.Resume? ==>
              s.pc.i < |s.list|
    ensures (forall t :: t in s.list ==> t in s.threads) && s' == CkptStep(s) && Leads(s, s') && Inv(s')
  {
    CkptKeeps(s);
    One(s, Ckpt);
    s' := Apply(s, Ckpt);
    hide Members, Phase;
  }

  // ------------------------------------------------------------------ one thread on its own

  // Nothing but the record of t has changed, and t is still there.
  ghost predicate OnlyThread(s: System, s': System, t: Tid) {
    && t in s.threads && t in s'.threads && s'.threads[t].alive == s.threads[t].alive
    && s' == s.(threads := s.threads[t := s'.threads[t]])
  }

  // The next instruction of a handler or of mtcp_ok or mtcp_no.
  lemma OwnStep(s: System, t: Tid) returns (s': System)
    requires Inv(s) && Listed(s, t) && (NeedsLock(s.threads[t]) ==> !Locked(s.pc))
    requires s.threads[t].frames.Push? || !s.threads[t].base.User?
    ensures Leads(s, s') && Inv(s') && OnlyThread(s, s', t) && Listed(s', t) && Good(s'.threads[t])
    ensures var th := s.threads[t];
            Go(s'.threads[t]) == if th.frames.Push? then HandlerStep(th, false) else CallStep(th)
  {
    GoodOne(s, t);
    hide Inv, Good, HandlerStep, CallStep, Leads, CkptStep, NeedsLock;
    var th := s.threads[t];
    if th.frames.Push? { HandlerKeeps(th, false); } else { CallKeeps(th); }
    var step := if th.frames.Push? then InHandler(t, false) else InCall(t);
    One(s, step);
    s' := Apply(s, step);
    GoodOne(s', t);
  }

  function Weight(f: Frame): nat {
    match f
    case Enter => 7
    case Raise => 6
    case Locks => 5
    case Commit => 4
    case Saving => 3
    case Waiting => 2
    case Resumed => 1
  }

  function Work(fs: Stack): nat {
    if fs.Empty? then 0 else Weight(fs.top) + Work(fs.under)
  }

  lemma LessWork(th: Thread)
    requires Good(th) && th.frames.Push? && th.state != Suspended
    ensures Work(HandlerStep(th, false).thread.frames) < Work(th.frames)
  {
  }

  // With the lock free, a thread can leave its handlers, unless it gets suspended.
  lemma {:induction false} Unwind(s: System, t: Tid) returns (s': System)
    requires Inv(s) && Listed(s, t) && !Locked(s.pc)
    ensures Leads(s, s') && Inv(s') && OnlyThread(s, s', t) && Listed(s', t)
    ensures s'.threads[t].state == Suspended || s'.threads[t].frames.Empty?
    decreases Work(s.threads[t].frames)
  {
    hide Inv, Good, HandlerStep, CallStep, Leads, NeedsLock;
    if s.threads[t].state == Suspended || s.threads[t].frames.Empty? {
      Stay(s);
      s' := s;
    } else {
      GoodOne(s, t);
      LessWork(s.threads[t]);
      var s1 := OwnStep(s, t);
      s' := Unwind(s1, t);
      Join(s, s1, s');
    }
  }

  // A handler that has not yet found its thread lies on top of one that is saving the thread's context.
  predicate Blocked(fs: Stack) {
    fs.Push? && fs.top != Saving && (fs.top == Enter || Blocked(fs.under))
  }

  lemma SavesNext(th: Thread)
    requires Good(th) && th.state == SuspInProg && !Blocked(th.frames)
    ensures th.frames.Push? && !NeedsLock(th)
    ensures var th' := HandlerStep(th, false).thread;
            th'.state == Suspended || (th'.state == SuspInProg && !Blocked(th'.frames))
  {
  }

  // A thread that is saving its context and not blocked can be suspended, without the lock.
  lemma {:induction false} SaveOn(s: System, t: Tid) returns (s': System)
    requires Inv(s) && Listed(s, t) && s.threads[t].state == SuspInProg && !Blocked(s.threads[t].frames)
    ensures Leads(s, s') && Inv(s') && OnlyThread(s, s', t) && Listed(s', t) && s'.threads[t].state == Suspended
    decreases Work(s.threads[t].frames)
  {
    hide Inv, Good, HandlerStep, CallStep, Leads, NeedsLock, Blocked;
    GoodOne(s, t);
    SavesNext(s.threads[t]);
    LessWork(s.threads[t]);
    var s1 := OwnStep(s, t);
    if s1.threads[t].state == Suspended {
      s' := s1;
    } else {
      s' := SaveOn(s1, t);
      Join(s, s1, s');
    }
  }

  // stopthisthread called in user code by a thread that has been marked.
  lemma DirectStop(s: System, t: Tid) returns (s': System)
    requires Inv(s) && Listed(s, t) && !Locked(s.pc)
    requires s.threads[t].state == SigEnabled && s.threads[t].frames == Push(Enter, Empty)
    ensures Leads(s, s') && Inv(s') && OnlyThread(s, s', t) && Listed(s', t) && s'.threads[t].state == Suspended
  {
    hide Inv, Good, CallStep, Leads, NeedsLock;
    var s1 := OwnStep(s, t);
    assert s1.threads[t].frames == Push(Raise, Empty) && s1.threads[t].state == SigEnabled;
    var s2 := OwnStep(s1, t);
    assert s2.threads[t].frames == Push(Commit, Empty) && s2.threads[t].state == SigEnabled;
    var s3 := OwnStep(s2, t);
    assert s3.threads[t].frames == Push(Saving, Empty) && s3.threads[t].state == SuspInProg;
    s' := OwnStep(s3, t);
    assert s'.threads[t].state == Suspended;
    hide HandlerStep;
    Join(s, s1, s2);
    Join(s, s2, s3);
    Join(s, s3, s');
  }

  predicate InOk(base: Base) {
    base.OkEnter? || base.OkRead? || base.OkSwap? || base.OkStop?
  }

  // How far mtcp_ok or mtcp_no has to go when nobody interferes.
  function ToGo(th: Thread): nat {
    match th.base
    case OkEnter => 6
    case OkRead => 5
    case OkSwap(seen) => if th.state == seen then 4 else 6
    case NoEnter => 6
    case NoRead => 5
    case NoSwap => if th.state == RunEnabled then 4 else 6
    case _ => 0
  }

  predicate AtRest(th: Thread) {
    th.state == Suspended || (th.frames.Empty? && th.base.User?)
  }

  lemma CallGoes(th: Thread)
    requires Good(th) && th.frames.Empty? && !th.base.User?
    ensures var th' := CallStep(th).thread;
            && (th'.frames.Push? ==> th'.frames == Push(Enter, Empty) && th'.state == SigEnabled)
            && (th'.frames.Empty? && !th'.base.User? ==> ToGo(th') < ToGo(th))
            && (InOk(th.base) ==> InOk(th'.base) || th'.base == User(false))
  {
  }

  // A call of mtcp_ok or mtcp_no comes back, unless the thread gets suspended in it.
  lemma {:induction false} RunCall(s: System, t: Tid) returns (s': System)
    requires Inv(s) && Listed(s, t) && !Locked(s.pc) && s.threads[t].frames.Empty?
    ensures Leads(s, s') && Inv(s') && OnlyThread(s, s', t) && Listed(s', t) && AtRest(s'.threads[t])
    ensures s.threads[t].base.User? ==> s' == s
    ensures InOk(s.threads[t].base) ==> s'.threads[t].state == Suspended || s'.threads[t].base == User(false)
    decreases ToGo(s.threads[t])
  {
    hide Inv, Good, HandlerStep, CallStep, Leads, NeedsLock;
    if s.threads[t].base.User? {
      Stay(s);
      s' := s;
    } else {
      GoodOne(s, t);
      CallGoes(s.threads[t]);
      var s1 := OwnStep(s, t);
      if s1.threads[t].frames.Push? { s' := DirectStop(s1, t); } else { s' := RunCall(s1, t); }
      Join(s, s1, s');
    }
  }

  // ------------------------------------------------------------------ all threads, while the lock is free

  // Suspended, or running with checkpointing enabled and not marked.
  predicate Settled(th: Thread) {
    th.state == Suspended || (InUserCode(th) && th.state == RunEnabled)
  }

  // Suspended, or marked, so that it stops when the signal is delivered.
  predicate Near(th: Thread) {
    th.state == Suspended || (InUserCode(th) && th.state == SigEnabled)
  }

  lemma RestingStates(th: Thread)
    requires Good(th) && th.alive && AtRest(th) && th.base != User(true)
    ensures th.state == Suspended || (InUserCode(th) && (th.state == RunEnabled || th.state == SigEnabled))
  {
  }

  // Where a thread that does not run user code ends up: suspended, or back in user code.
  lemma Rest(s: System, t: Tid) returns (s': System)
    requires Inv(s) && Listed(s, t) && !Locked(s.pc)
    ensures Leads(s, s') && Inv(s') && OnlyThread(s, s', t) && Listed(s', t) && AtRest(s'.threads[t])
    ensures Near(s.threads[t]) ==> s' == s
  {
    hide Inv, Good, HandlerStep, CallStep, Leads, NeedsLock;
    if AtRest(s.threads[t]) {
      Stay(s);
      Unchanged(s, t);
      s' := s;
    } else {
      var s1 := Unwind(s, t);
      if s1.threads[t].state == Suspended {
        s' := s1;
      } else {
        s' := RunCall(s1, t);
        Join(s, s1, s');
        OnlyTwice(s, s1, s', t);
      }
    }
  }

  lemma Unchanged(s: System, t: Tid)
    requires t in s.threads
    ensures OnlyThread(s, s, t)
  {
    assert s.threads == s.threads[t := s.threads[t]];
  }

  lemma OnlyTwice(a: System, b: System, c: System, t: Tid)
    requires OnlyThread(a, b, t) && OnlyThread(b, c, t)
    ensures OnlyThread(a, c, t)
  {
    assert a.threads[t := b.threads[t]][t := c.threads[t]] == a.threads[t := c.threads[t]];
  }

  // A thread that has checkpointing switched off calls mtcp_ok.
  lemma SwitchOn(s: System, t: Tid) returns (s': System)
    requires Inv(s) && Listed(s, t) && !Locked(s.pc) && AtRest(s.threads[t]) && s.threads[t].state != Suspended
    requires s.threads[t].base == User(true)
    ensures Leads(s, s') && Inv(s') && OnlyThread(s, s', t) && Listed(s', t) && AtRest(s'.threads[t])
    ensures s'.threads[t].state == Suspended || s'.threads[t].base == User(false)
  {
    hide Inv, Good, HandlerStep, CallStep, Leads, NeedsLock;
    One(s, CallOk(t));
    var s1 := Apply(s, CallOk(t));
    s' := RunCall(s1, t);
    Join(s, s1, s');
  }

  // The signal reaches a thread that has been marked.
  lemma Deliver(s: System, t: Tid) returns (s': System)
    requires Inv(s) && Listed(s, t) && !Locked(s.pc) && InUserCode(s.threads[t]) && s.threads[t].state == SigEnabled
    ensures Leads(s, s') && Inv(s') && OnlyThread(s, s', t) && Listed(s', t) && s'.threads[t].state == Suspended
  {
    hide Inv, Good, HandlerStep, CallStep, Leads, NeedsLock;
    One(s, Interrupt(t));
    var s1 := Apply(s, Interrupt(t));
    s' := DirectStop(s1, t);
    Join(s, s1, s');
  }

  lemma Settle(s: System, t: Tid) returns (s': System)
    requires Inv(s) && Listed(s, t) && !Locked(s.pc)
    ensures Leads(s, s') && Inv(s') && OnlyThread(s, s', t) && Listed(s', t) && Settled(s'.threads[t])
    ensures Near(s.threads[t]) ==> s'.threads[t].state == Suspended
  {
    hide Inv, Good, HandlerStep, CallStep, Leads, NeedsLock;
    s' := Rest(s, t);
    if s'.threads[t].state != Suspended && s'.threads[t].base == User(true) {
      NearIsOn(s, t);
      var s2 := SwitchOn(s', t);
      Join(s, s', s2);
      OnlyTwice(s, s', s2, t);
      s' := s2;
    }
    GoodOne(s', t);
    RestingStates(s'.threads[t]);
    if s'.threads[t].state == SigEnabled {
      var s2 := Deliver(s', t);
      Join(s, s', s2);
      OnlyTwice(s, s', s2, t);
      s' := s2;
    }
  }

  lemma NearIsOn(s: System, t: Tid)
    requires Inv(s) && Listed(s, t)
    ensures Near(s.threads[t]) && s.threads[t].state != Suspended ==> s.threads[t].base == User(false)
  {
    GoodOne(s, t);
  }

  // A listed thread that is neither dead nor the checkpoint thread is settled.
  predicate Calm(s: System, t: Tid) {
    t in s.threads && (Listed(s, t) ==> Settled(s.threads[t]))
  }

  predicate Marked(s: System, t: Tid) {
    t in s.threads && (Listed(s, t) ==> Near(s.threads[t]))
  }

  predicate Down(s: System, t: Tid) {
    t in s.threads && (Listed(s, t) ==> s.threads[t].state == Suspended)
  }

  ghost predicate AllCalm(s: System, n: nat) {
    forall j {:trigger s.list[j]} :: 0 <= j < n && j < |s.list| ==> Calm(s, s.list[j])
  }

  ghost predicate AllMarked(s: System, n: nat) {
    forall j {:trigger s.list[j]} :: 0 <= j < n && j < |s.list| ==> Marked(s, s.list[j])
  }

  ghost predicate AllDown(s: System, n: nat) {
    forall j {:trigger s.list[j]} :: 0 <= j < n && j < |s.list| ==> Down(s, s.list[j])
  }

  lemma CalmOn(s: System, s': System, n: nat)
    requires Inv(s) && n < |s.list| && OnlyThread(s, s', s.list[n]) && AllCalm(s, n) && Calm(s', s.list[n])
    ensures AllCalm(s', n + 1)
    ensures AllDown(s, n) && Down(s', s.list[n]) ==> AllDown(s', n + 1)
  {
    assert Distinct(s.list);
    hide Good;
  }

  ghost predicate SameButThreads(s: System, s': System) {
    s' == s.(threads := s'.threads) && forall t :: t in s.threads ==> t in s'.threads
  }

  // Everybody settles, one after the other.
  lemma SettleAll(s: System) returns (s': System)
    requires Inv(s) && !Locked(s.pc)
    ensures Leads(s, s') && Inv(s') && SameButThreads(s, s') && AllCalm(s', |s.list|)
    ensures AllMarked(s, |s.list|) ==> AllDown(s', |s.list|)
  {
    s' := s;
    Stay(s);
    var n := 0;
    hide Inv, Good, Leads, AllCalm, AllDown, AllMarked, SameButThreads, Untouched;
    NoneYet(s);
    while n < |s.list|
      invariant n <= |s.list| && Leads(s, s') && Inv(s') && SameButThreads(s, s')
      invariant s'.list == s.list && s'.pc == s.pc && s'.ckpt == s.ckpt
      invariant AllCalm(s', n) && (AllMarked(s, |s.list|) ==> AllDown(s', n))
      invariant Untouched(s, s', n)
    {
      var s2 := SettleAt(s, s', n);
      Join(s, s', s2);
      s' := s2;
      n := n + 1;
    }
  }

  // The threads from position n on are as they were.
  ghost predicate Untouched(s: System, s': System, n: nat) {
    forall j {:trigger s.list[j]} :: n <= j < |s.list| ==>
      s.list[j] in s.threads && s.list[j] in s'.threads && s'.threads[s.list[j]] == s.threads[s.list[j]]
  }

  lemma NoneYet(s: System)
    requires Inv(s)
    ensures AllCalm(s, 0) && AllDown(s, 0) && SameButThreads(s, s) && Untouched(s, s, 0)
  {
    hide Good;
  }

  lemma UntouchedOn(s: System, s1: System, s': System, n: nat)
    requires Inv(s1) && s1.list == s.list && n < |s.list| && OnlyThread(s1, s', s.list[n]) && Untouched(s, s1, n)
    ensures Untouched(s, s', n + 1)
  {
    assert Distinct(s.list);
    hide Good;
  }

  lemma SettleAt(s: System, s1: System, n: nat) returns (s': System)
    requires Inv(s1) && n < |s.list| && !Locked(s1.pc) && SameButThreads(s, s1) && AllCalm(s1, n)
    requires s1.list == s.list && s1.pc == s.pc && s1.ckpt == s.ckpt
    requires Untouched(s, s1, n)
    ensures Leads(s1, s') && Inv(s') && SameButThreads(s, s') && AllCalm(s', n + 1)
    ensures s'.list == s.list && s'.pc == s.pc && s'.ckpt == s.ckpt
    ensures AllMarked(s, |s.list|) && AllDown(s1, n) ==> AllDown(s', n + 1)
    ensures Untouched(s, s', n + 1)
  {
    var t := s.list[n];
    assert t in s.threads && t in s1.threads && s1.threads[t] == s.threads[t];
    hide Untouched;
    hide Inv, Good, Leads, AllCalm, AllDown, AllMarked;
    if Listed(s1, t) {
      s' := Settle(s1, t);
    } else {
      Stay(s1);
      Unchanged(s1, t);
      s' := s1;
    }
    MarkedAt(s, n);
    CalmOn(s1, s', n);
    UntouchedOn(s, s1, s', n);
  }

  lemma MarkedAt(s: System, n: nat)
    requires n < |s.list|
    ensures AllMarked(s, |s.list|) ==> Marked(s, s.list[n])
  {
  }

  // ------------------------------------------------------------------ the scan over settled threads

  // The thread at position i has been passed: it is marked if it was running, and nothing else has changed.
  ghost predicate Passed(s: System, s': System, i: nat)
    requires i < |s.list| && s.list[i] in s.threads
  {
    var t := s.list[i];
    && t in s'.threads && s'.threads[t].alive == s.threads[t].alive
    && (t != s.ckpt ==> Near(s'.threads[t])
                        && (s'.needRescan <==> s.needRescan || s.threads[t].state == RunEnabled))
    && (t == s.ckpt ==> s'.needRescan == s.needRescan)
    && s' == s.(threads := s.threads[t := s'.threads[t]], needRescan := s'.needRescan, pc := s'.pc, store := s'.store)
    && s'.pc == if i + 1 < |s.list| then Probe(i + 1) else if s'.needRescan then Rescan else Quiet
  }

  // One turn of the scan, at a thread that is settled, dead or the checkpoint thread. A dead one is removed.
  lemma PassOne(s: System) returns (s': System)
    requires Inv(s) && s.pc.Probe? && Calm(s, s.list[s.pc.i])
    ensures Leads(s, s') && Inv(s')
    ensures if s.threads[s.list[s.pc.i]].alive then Passed(s, s', s.pc.i)
            else s'.pc == Rescan && s'.list == Remove(s.list, s.list[s.pc.i]) && s'.ckpt == s.ckpt
  {
    var i := s.pc.i;
    var t := s.list[i];
    Entry(s, i);
    hide Inv, Good, Leads, Remove, CallStep, HandlerStep, InUserCode;
    var s1 := OneCkpt(s);
    if !s.threads[t].alive {
      s' := s1;
    } else {
      assert s1 == s.(pc := Look(i));
      var s2 := OneCkpt(s1);
      Join(s, s1, s2);
      s' := s2;
      if t == s.ckpt || s.threads[t].state == Suspended {
        assert s2 == ProbeNext(s1, i + 1) && s.threads == s.threads[t := s.threads[t]];
      } else {
        assert s2 == s.(pc := SwapEnabled(i));
        var s3 := OneCkpt(s2);
        Join(s, s2, s3);
        s' := OneCkpt(s3);
        Join(s, s3, s');
        Flagged(s, s', i);
      }
    }
  }

  lemma Flagged(s: System, s': System, i: nat)
    requires i < |s.list| && s.list[i] in s.threads && s.threads[s.list[i]].alive && s.list[i] != s.ckpt
    requires s.threads[s.list[i]].state == RunEnabled && InUserCode(s.threads[s.list[i]])
    requires var s1 := s.(threads := s.threads[s.list[i] := Swap(s.threads[s.list[i]], SigEnabled, RunEnabled)],
                          pc := Signal(i));
             s' == SignalStep(s1, i)
    ensures Passed(s, s', i)
  {
  }

  ghost predicate CalmFrom(s: System, i: nat) {
    forall j {:trigger s.list[j]} :: i <= j < |s.list| ==> Calm(s, s.list[j])
  }

  ghost predicate DownFrom(s: System, i: nat) {
    forall j {:trigger s.list[j]} :: i <= j < |s.list| ==> Down(s, s.list[j])
  }

  lemma PassedOn(s: System, s': System, i: nat)
    requires Inv(s) && i < |s.list| && s.list[i] in s.threads && s.threads[s.list[i]].alive && Passed(s, s', i)
    requires CalmFrom(s, i) && AllMarked(s, i)
    ensures s'.list == s.list && s'.ckpt == s.ckpt && CalmFrom(s', i + 1) && AllMarked(s', i + 1)
    ensures DownFrom(s, i) ==> DownFrom(s', i + 1) && s'.needRescan == s.needRescan
  {
    Entry(s, i);
    assert Distinct(s.list);
    assert Calm(s, s.list[i]) && (DownFrom(s, i) ==> Down(s, s.list[i]));
    hide Good;
  }

  lemma {:induction false} RemoveShortens(list: seq<Tid>, t: Tid)
    requires t in list
    ensures |Remove(list, t)| == |list| - 1
  {
    if list[0] != t { RemoveShortens(list[1..], t); }
  }

  // The rest of a scan over settled threads: it ends at a thread that has died, or the list is done.
  lemma {:induction false} ScanOut(s: System) returns (s': System)
    requires Inv(s) && s.pc.Probe? && CalmFrom(s, s.pc.i) && AllMarked(s, s.pc.i)
    ensures Leads(s, s') && Inv(s') && (s'.pc == Rescan || s'.pc == Quiet)
    ensures |s'.list| < |s.list| || (s'.list == s.list && AllMarked(s', |s'.list|))
    ensures DownFrom(s, s.pc.i) && !s.needRescan ==> s'.pc == Quiet || |s'.list| < |s.list|
    decreases |s.list| - s.pc.i
  {
    var i := s.pc.i;
    Entry(s, i);
    assert Calm(s, s.list[i]);
    hide Inv, Good, Leads, CalmFrom, AllMarked, DownFrom, Passed, Calm;
    var s1 := PassOne(s);
    if !s.threads[s.list[i]].alive {
      RemoveShortens(s.list, s.list[i]);
      s' := s1;
    } else {
      PassedOn(s, s1, i);
      PassedPc(s, s1, i);
      if i + 1 < |s.list| {
        s' := ScanOut(s1);
        Join(s, s1, s');
      } else {
        s' := s1;
      }
    }
  }

  lemma PassedPc(s: System, s': System, i: nat)
    requires i < |s.list| && s.list[i] in s.threads && Passed(s, s', i)
    ensures s'.pc == if i + 1 < |s.list| then Probe(i + 1) else if s'.needRescan then Rescan else Quiet
  {
  }

  lemma Begins(s: System)
    requires Inv(s) && AllCalm(s, |s.list|)
    ensures |s.list| > 0 && CalmFrom(s.(needRescan := false, pc := Probe(0)), 0)
    ensures AllMarked(s.(needRescan := false, pc := Probe(0)), 0)
    ensures AllDown(s, |s.list|) ==> DownFrom(s.(needRescan := false, pc := Probe(0)), 0)
  {
    var s' := s.(needRescan := false, pc := Probe(0));
    hide Good;
    forall j | 0 <= j < |s.list|
      ensures Calm(s', s'.list[j]) && (AllDown(s, |s.list|) ==> Down(s', s'.list[j]))
    {
      assert Calm(s, s.list[j]) && (AllDown(s, |s.list|) ==> Down(s, s.list[j]));
    }
  }

  // A whole scan over settled threads.
  lemma Scan(s: System) returns (s': System)
    requires Inv(s) && s.pc == Rescan && AllCalm(s, |s.list|)
    ensures Leads(s, s') && Inv(s') && (s'.pc == Rescan || s'.pc == Quiet)
    ensures |s'.list| < |s.list| || (s'.list == s.list && AllMarked(s', |s'.list|))
    ensures AllDown(s, |s.list|) ==> s'.pc == Quiet || |s'.list| < |s.list|
  {
    Begins(s);
    hide Inv, Good, Leads, AllMarked, AllCalm, AllDown, CalmFrom, DownFrom;
    var s1 := OneCkpt(s);
    s' := ScanOut(s1);
    Join(s, s1, s');
  }

  // Let everybody settle, scan, let those that have been marked stop, and scan again; if a thread has died in between,
  // the list is shorter.
  lemma {:induction false} Drive(s: System) returns (s': System)
    requires Inv(s) && s.pc == Rescan
    ensures Leads(s, s') && Inv(s') && s'.pc == Quiet
    decreases |s.list|
  {
    hide Inv, Good, Leads, AllMarked, AllCalm, AllDown;
    var s1 := SettleAll(s);
    s' := Scan(s1);
    Join(s, s1, s');
    if s'.pc == Quiet { return; }
    if |s'.list| == |s.list| {
      var s3 := SettleAll(s');
      var s4 := Scan(s3);
      Join(s', s3, s4);
      Join(s, s', s4);
      s' := s4;
      if s'.pc == Quiet { return; }
    }
    var s5 := Drive(s');
    Join(s, s', s5);
    s' := s5;
  }

  // ------------------------------------------------------------------ out of a scan under way

  predicate Scanning(pc: Pc) {
    pc.Probe? || pc.Look? || pc.SwapDisabled? || pc.SwapEnabled? || pc.Signal?
  }

  // What the thread at position i makes the scan do when it comes there: start over, and so let go of the lock, ...
  predicate WillMark(fs: Stack) {
    fs.Push? && fs.top != Enter && (fs.top == Raise || WillMark(fs.under))
  }

  predicate Restarts(th: Thread) {
    th.state == SigEnabled || th.state == SigDisabled || (th.state == RunEnabled && WillMark(th.frames))
  }

  // ... or wait for ever.
  predicate Stops(th: Thread) {
    th.alive && th.state == SuspInProg && Blocked(th.frames)
  }

  // From position i on, a thread for which the scan waits comes before any that makes it start over.
  predicate Doom(s: System, i: nat)
    decreases |s.list| - i
  {
    && i < |s.list| && s.list[i] in s.threads
    && var th := s.threads[s.list[i]]; th.alive && (Stops(th) || (!Restarts(th) && Doom(s, i + 1)))
  }

  // A thread that has vanished after it was probed, and is passed without being noticed.
  predicate Unseen(th: Thread, pc: Pc) {
    && !th.alive
    && ((pc.Look? && (th.state == RunDisabled || th.state == Suspended))
        || (pc.SwapDisabled? && th.state == RunDisabled))
  }

  // The scan is under way and bound to wait for ever.
  predicate Jammed(s: System) {
    && Scanning(s.pc) && s.pc.i < |s.list| && s.list[s.pc.i] in s.threads
    && var th := s.threads[s.list[s.pc.i]];
       if s.pc.Signal? then th.alive && Doom(s, s.pc.i + 1)
       else if Unseen(th, s.pc) then Doom(s, s.pc.i + 1)
       else Doom(s, s.pc.i)
  }

  // How far the scan has to go at its position when the thread there does not move.
  function Rank(s: System): nat
    requires Scanning(s.pc) ==> s.pc.i < |s.list| && s.list[s.pc.i] in s.threads
  {
    match s.pc
    case Probe(i) => if s.threads[s.list[i]].state == SuspInProg then 5 else 4
    case Look(i) => if s.threads[s.list[i]].state == SuspInProg then 6 else 3
    case SwapDisabled(i) => if s.threads[s.list[i]].state == RunDisabled then 2 else 6
    case SwapEnabled(i) => if s.threads[s.list[i]].state == RunEnabled then 2 else 6
    case Signal(_) => 1
    case _ => 0
  }

  // What is behind position i only depends on the threads there.
  lemma {:induction false} DoomSame(s: System, s': System, i: nat)
    requires s'.list == s.list
    requires forall j {:trigger s.list[j]} :: i <= j < |s.list| ==>
               (s.list[j] in s.threads <==> s.list[j] in s'.threads)
               && (s.list[j] in s.threads ==> s'.threads[s.list[j]] == s.threads[s.list[j]])
    ensures Doom(s', i) == Doom(s, i)
    decreases |s.list| - i
  {
    hide Stops, Restarts;
    if i < |s.list| { DoomSame(s, s', i + 1); }
  }

  lemma DoomBehind(s: System, s': System, i: nat)
    requires Inv(s) && i < |s.list| && s'.list == s.list && s.list[i] in s'.threads
    requires s'.threads == s.threads[s.list[i] := s'.threads[s.list[i]]]
    ensures Doom(s', i + 1) == Doom(s, i + 1)
  {
    assert Distinct(s.list);
    hide Members, Phase;
    DoomSame(s, s', i + 1);
  }

  lemma SameBehind(s: System)
    requires Inv(s) && Scanning(s.pc)
    ensures var s' := CkptStep(s); s'.list == s.list ==> Doom(s', s.pc.i + 1) == Doom(s, s.pc.i + 1)
  {
    StepAt(s);
    var s' := CkptStep(s);
    hide CkptStep, Doom, Inv;
    if s'.list == s.list { DoomBehind(s, s', s.pc.i); }
  }

  lemma DoomHere(s: System, i: nat)
    requires i < |s.list| && s.list[i] in s.threads
    ensures var th := s.threads[s.list[i]]; Doom(s, i) == (th.alive && (Stops(th) || (!Restarts(th) && Doom(s, i + 1))))
  {
  }

  // A step of the checkpoint thread at a thread that makes the scan neither wait nor start over.
  ghost predicate OnWay(s: System, s': System)
    requires Scanning(s.pc) && s.pc.i < |s.list| && s.list[s.pc.i] in s.threads
  {
    s'.pc == Rescan || s'.pc == Quiet
    || (Scanning(s'.pc) && s'.list == s.list && s'.pc.i < |s.list| && s.list[s'.pc.i] in s'.threads
        && !Jammed(s')
        && (s'.pc.i == s.pc.i + 1 || (s'.pc.i == s.pc.i && Rank(s') < Rank(s))))
  }

  lemma WayStep(s: System)
    requires Inv(s) && Scanning(s.pc) && s.pc.i < |s.list| && s.list[s.pc.i] in s.threads && !Jammed(s)
    requires var th := s.threads[s.list[s.pc.i]];
             !s.pc.Signal? && th.alive ==> !Restarts(th) && (s.pc.Probe? ==> th.state != SuspInProg)
    ensures OnWay(s, CkptStep(s))
  {
    SameBehind(s);
    var i := s.pc.i;
    DoomHere(s, i);
    hide Doom;
    match s.pc
    case Signal(_) => WaySignal(s);
    case Probe(_) => WayProbe(s);
    case Look(_) => WayLook(s);
    case _ => WaySwap(s);
  }

  lemma WayProbe(s: System)
    requires Inv(s) && s.pc.Probe? && s.pc.i < |s.list| && s.list[s.pc.i] in s.threads && !Jammed(s)
    requires s.threads[s.list[s.pc.i]].alive ==> s.threads[s.list[s.pc.i]].state != SuspInProg
    ensures OnWay(s, CkptStep(s))
  {
    var s' := CkptStep(s);
    if s'.list == s.list { DoomSame(s, s', s.pc.i); }
    hide Good, Members, Phase, Blocked, WillMark, Remove, Doom;
  }

  lemma WayLook(s: System)
    requires Inv(s) && s.pc.Look? && s.pc.i < |s.list| && s.list[s.pc.i] in s.threads && !Jammed(s)
    requires var th := s.threads[s.list[s.pc.i]];
             && Doom(s, s.pc.i) == (th.alive && (Stops(th) || (!Restarts(th) && Doom(s, s.pc.i + 1))))
             && (th.alive ==> !Restarts(th))
    ensures OnWay(s, CkptStep(s))
  {
    Entry(s, s.pc.i);
    hide Inv, Blocked, WillMark, Doom, CkptStep;
    LookMoves(s);
    var s' := CkptStep(s);
    DoomSame(s, s', s.pc.i);
    DoomSame(s, s', s.pc.i + 1);
    NoneThere(s);
    assert Scanning(s'.pc) ==> s'.pc.i < |s.list| && s.list[s'.pc.i] in s'.threads && !Jammed(s');
    hide Jammed, Restarts, Stops;
  }

  // What the scan does when it looks at a thread.
  lemma LookMoves(s: System)
    requires Inv(s) && s.pc.Look? && s.pc.i < |s.list| && s.list[s.pc.i] in s.threads
    ensures var s', i := CkptStep(s), s.pc.i;
            && s'.threads == s.threads && s'.list == s.list
            && match s.threads[s.list[i]].state
               case RunDisabled => s'.pc == SwapDisabled(i)
               case RunEnabled => s'.pc == SwapEnabled(i)
               case SuspInProg => s'.pc == Probe(i)
               case SigDisabled => s'.pc == Rescan
               case SigEnabled => s'.pc == Rescan
               case _ => s'.pc == if i + 1 < |s.list| then Probe(i + 1) else if s.needRescan then Rescan else Quiet
  {
    Entry(s, s.pc.i);
    hide Good, Members, Phase;
  }

  lemma WaySwap(s: System)
    requires Inv(s) && (s.pc.SwapDisabled? || s.pc.SwapEnabled?)
    requires s.pc.i < |s.list| && s.list[s.pc.i] in s.threads && !Jammed(s)
    requires var s' := CkptStep(s); s'.list == s.list ==> Doom(s', s.pc.i + 1) == Doom(s, s.pc.i + 1)
    requires var th := s.threads[s.list[s.pc.i]];
             && Doom(s, s.pc.i) == (th.alive && (Stops(th) || (!Restarts(th) && Doom(s, s.pc.i + 1))))
             && (th.alive ==> !Restarts(th))
    ensures OnWay(s, CkptStep(s))
  {
    Entry(s, s.pc.i);
    var s' := CkptStep(s);
    if s'.list == s.list && s.pc.i < |s.list| && s.list[s.pc.i] in s'.threads { DoomHere(s', s.pc.i); }
    NoneThere(s');
    hide Good, Members, Phase, Blocked, WillMark, Remove, Doom;
  }

  lemma WaySignal(s: System)
    requires Inv(s) && s.pc.Signal? && s.pc.i < |s.list| && s.list[s.pc.i] in s.threads && !Jammed(s)
    requires var s' := CkptStep(s); s'.list == s.list ==> Doom(s', s.pc.i + 1) == Doom(s, s.pc.i + 1)
    ensures OnWay(s, CkptStep(s))
  {
    Entry(s, s.pc.i);
    NoneThere(CkptStep(s));
    hide Good, Members, Phase, Remove, Doom;
  }

  lemma NoneThere(s: System)
    ensures !Doom(s, |s.list|)
  {
  }

  lemma StepAt(s: System)
    requires Inv(s) && Scanning(s.pc)
    ensures var t := s.list[s.pc.i];
            t in CkptStep(s).threads && CkptStep(s).threads == s.threads[t := CkptStep(s).threads[t]]
  {
    var t := s.list[s.pc.i];
    Entry(s, s.pc.i);
    assert s.threads == s.threads[t := s.threads[t]];
    hide Good, Members, Phase, Remove;
  }

  lemma Savers(s: System, i: nat)
    requires Inv(s) && i < |s.list|
    ensures s.list[i] in s.threads
    ensures s.threads[s.list[i]].alive && s.threads[s.list[i]].state != CkpntThread ==> Listed(s, s.list[i])
  {
    Entry(s, i);
  }

  lemma MarksNext(th: Thread)
    requires Good(th) && th.state == RunEnabled && WillMark(th.frames)
    ensures th.frames.Push? && !NeedsLock(th)
    ensures var th' := HandlerStep(th, false).thread;
            th'.state == SigEnabled || (th'.state == RunEnabled && WillMark(th'.frames))
  {
  }

  // A thread that has found itself in a handler, and has not marked itself yet, can do so without the lock.
  lemma {:induction false} MarkOn(s: System, t: Tid) returns (s': System)
    requires Inv(s) && Listed(s, t) && s.threads[t].state == RunEnabled && WillMark(s.threads[t].frames)
    ensures Leads(s, s') && Inv(s') && OnlyThread(s, s', t) && Listed(s', t) && s'.threads[t].state == SigEnabled
    decreases Work(s.threads[t].frames)
  {
    hide Inv, Good, HandlerStep, CallStep, Leads, NeedsLock, WillMark;
    GoodOne(s, t);
    MarksNext(s.threads[t]);
    LessWork(s.threads[t]);
    var s1 := OwnStep(s, t);
    if s1.threads[t].state == SigEnabled {
      s' := s1;
    } else {
      s' := MarkOn(s1, t);
      Join(s, s1, s');
    }
  }

  // The scan finds a marked thread and starts over.
  lemma StartOver(s: System) returns (s': System)
    requires Inv(s) && Scanning(s.pc) && !s.pc.Signal? && s.list[s.pc.i] in s.threads
    requires s.threads[s.list[s.pc.i]].alive
    requires s.threads[s.list[s.pc.i]].state == SigEnabled || s.threads[s.list[s.pc.i]].state == SigDisabled
    ensures Leads(s, s') && Inv(s') && s'.pc == Rescan
  {
    hide Inv, Good, Leads, Remove;
    Stay(s);
    s' := s;
    if s'.pc.SwapDisabled? || s'.pc.SwapEnabled? {
      var s1 := OneCkpt(s');
      Join(s, s', s1);
      s' := s1;
    }
    if s'.pc.Probe? {
      var s1 := OneCkpt(s');
      Join(s, s', s1);
      s' := s1;
    }
    assert s'.pc.Look?;
    var s1 := OneCkpt(s');
    Join(s, s', s1);
    s' := s1;
  }

  lemma StillFree(s: System, s': System, t: Tid)
    requires Inv(s) && s.pc.Probe? && s.list[s.pc.i] == t && !Jammed(s) && OnlyThread(s, s', t)
    requires s.threads[t].alive && s.threads[t].state == SuspInProg && s'.threads[t].state == Suspended
    ensures !Jammed(s')
  {
    DoomBehind(s, s', s.pc.i);
    hide Inv, Blocked, WillMark;
  }

  // Out of a scan that is not jammed.
  lemma {:induction false} FreeUp(s: System) returns (s': System)
    requires Inv(s) && Scanning(s.pc) && !Jammed(s)
    ensures s.pc.i < |s.list| && s.list[s.pc.i] in s.threads
    ensures Leads(s, s') && Inv(s') && (s'.pc == Rescan || s'.pc == Quiet)
    decreases |s.list| - s.pc.i, if s.pc.i < |s.list| && s.list[s.pc.i] in s.threads then Rank(s) else 0
  {
    var i := s.pc.i;
    assert i < |s.list|;
    var t := s.list[i];
    var th := s.threads[t];
    Savers(s, i);
    assert s.pc.Probe? && th.alive && th.state == SuspInProg ==> !Blocked(th.frames);
    hide Inv, Good, Leads, CkptStep, Blocked, Jammed, WillMark;
    if !s.pc.Signal? && th.alive && Restarts(th) {
      var s1 := s;
      Stay(s);
      if th.state == RunEnabled { s1 := MarkOn(s, t); }
      s' := StartOver(s1);
      Join(s, s1, s');
    } else {
      var s1;
      if s.pc.Probe? && th.alive && th.state == SuspInProg {
        s1 := SaveOn(s, t);
        StillFree(s, s1, t);
      } else {
        WayStep(s);
        s1 := OneCkpt(s);
        assert OnWay(s, s1);
      }
      if s1.pc == Rescan || s1.pc == Quiet {
        s' := s1;
      } else {
        s' := FreeUp(s1);
        Join(s, s1, s');
      }
    }
  }

  // ------------------------------------------------------------------ from a complete image back to sleep

  ghost predicate ResumedUpTo(s: System, i: nat) {
    forall j {:trigger s.list[j]} :: 0 <= j < i && j < |s.list| ==>
      s.list[j] in s.threads && (s.list[j] != s.ckpt ==> s.threads[s.list[j]].state == RunEnabled)
  }

  lemma ResumedOn(s: System)
    requires Inv(s) && s.pc.Resume? && ResumedUpTo(s, s.pc.i)
    ensures var s' := CkptStep(s);
            && s'.list == s.list && s'.ckpt == s.ckpt && s'.store == s.store && ResumedUpTo(s', s.pc.i + 1)
            && s'.pc == if s.pc.i + 1 == |s.list| then Sleep else Resume(s.pc.i + 1)
  {
    Entry(s, s.pc.i);
    assert Stopped(s.threads, s.ckpt, s.list[s.pc.i]);
    assert Distinct(s.list);
    hide Good, Members;
  }

  lemma {:induction false} WakeAll(s: System) returns (s': System)
    requires Inv(s) && s.pc.Resume? && ResumedUpTo(s, s.pc.i)
    ensures Leads(s, s') && Inv(s') && s'.pc == Sleep && s'.list == s.list && s'.ckpt == s.ckpt && s'.store == s.store
    ensures ResumedUpTo(s', |s'.list|)
    decreases |s.list| - s.pc.i
  {
    var i := s.pc.i;
    assert i < |s.list|;
    hide Inv, Good, Leads, ResumedUpTo, CkptStep;
    ResumedOn(s);
    var s1 := OneCkpt(s);
    if s1.pc == Sleep {
      s' := s1;
    } else {
      s' := WakeAll(s1);
      Join(s, s1, s');
    }
  }

  // From a state in which everything is suspended, back to sleep, with every listed thread enabled again.
  lemma Wake(s: System) returns (s': System)
    requires Inv(s) && s.pc == Quiet
    ensures Leads(s, s') && Inv(s') && s'.pc == Sleep && s'.list == s.list && s'.ckpt == s.ckpt && s'.store == s.store
    ensures forall t :: t in s'.list && t != s'.ckpt ==> t in s'.threads && s'.threads[t].state == RunEnabled
  {
    assert |s.list| > 0;
    var s1 := OneCkpt(s);
    assert s1 == s.(pc := Resume(0)) && ResumedUpTo(s1, 0);
    hide Inv, Good, Leads;
    s' := WakeAll(s1);
    Join(s, s1, s');
  }

  // ------------------------------------------------------------------ the image

  ghost predicate SameButStore(s: System, s': System) {
    s' == s.(store := s'.store) && s'.store.mem == s.store.mem
  }

  lemma SaveWord(s: System, a: nat) returns (s': System)
    requires Inv(s) && s.pc == Quiet && a in s.store.mem
    ensures Leads(s, s') && Inv(s') && SameButStore(s, s') && s'.store.image.Keys == s.store.image.Keys + {a}
  {
    hide Inv, Leads, HandlerStep, CallStep, CkptStep;
    One(s, Save(a));
    s' := Apply(s, Save(a));
  }

  lemma SaveOneState(s: System, t: Tid) returns (s': System)
    requires Inv(s) && s.pc == Quiet && t in s.list && t != s.ckpt
    ensures Leads(s, s') && Inv(s') && SameButStore(s, s') && s'.store.image == s.store.image
    ensures s'.store.saved.Keys == s.store.saved.Keys + {t}
  {
    assert t in s.threads;
    hide Inv, Leads, HandlerStep, CallStep, CkptStep;
    One(s, SaveState(t));
    s' := Apply(s, SaveState(t));
  }

  lemma SaveWords(s: System) returns (s': System)
    requires Inv(s) && s.pc == Quiet
    ensures Leads(s, s') && Inv(s') && SameButStore(s, s') && s'.store.image.Keys == s'.store.mem.Keys
  {
    s' := s;
    Stay(s);
    InMemory(s);
    hide Inv, Good, Leads;
    var left := s.store.mem.Keys - s.store.image.Keys;
    while left != {}
      invariant Leads(s, s') && Inv(s') && SameButStore(s, s') && left <= s.store.mem.Keys
      invariant s.store.mem.Keys == left + s'.store.image.Keys
      decreases left
    {
      var a :| a in left;
      var s1 := SaveWord(s', a);
      Join(s, s', s1);
      s' := s1;
      left := left - {a};
    }
  }

  lemma InMemory(s: System)
    requires Inv(s) && s.pc == Quiet
    ensures s.store.image.Keys <= s.store.mem.Keys
  {
    hide Members, AllStopped;
  }

  lemma SaveStates(s: System) returns (s': System)
    requires Inv(s) && s.pc == Quiet
    ensures Leads(s, s') && Inv(s') && SameButStore(s, s') && s'.store.image == s.store.image
    ensures forall t :: t in s.list && t != s.ckpt ==> t in s'.store.saved
  {
    s' := s;
    Stay(s);
    hide Inv, Good, Leads;
    var n := 0;
    while n < |s.list|
      invariant n <= |s.list| && Leads(s, s') && Inv(s') && SameButStore(s, s') && s'.store.image == s.store.image
      invariant forall j :: 0 <= j < n ==> s.list[j] == s.ckpt || s.list[j] in s'.store.saved
    {
      if s.list[n] != s.ckpt {
        var s1 := SaveOneState(s', s.list[n]);
        Join(s, s', s1);
        s' := s1;
      }
      n := n + 1;
    }
  }

  lemma SaveAll(s: System) returns (s': System)
    requires Inv(s) && s.pc == Quiet
    ensures Leads(s, s') && Inv(s') && SameButStore(s, s') && ImageDone(s')
  {
    hide Inv, Good, Leads;
    var s1 := SaveWords(s);
    s' := SaveStates(s1);
    Join(s, s1, s');
  }

  // ------------------------------------------------------------------ a checkpoint can be completed

  lemma ToQuiet(s: System) returns (s': System)
    requires Inv(s) && !Jammed(s)
    ensures Leads(s, s') && Inv(s') && s'.pc == Quiet
  {
    hide Inv, Good, Leads, Jammed;
    s' := s;
    Stay(s);
    if Scanning(s.pc) {
      s' := FreeUp(s);
    } else if s.pc.Resume? {
      s' := FinishResume(s);
    }
    if s'.pc == Sleep {
      var s1 := OneCkpt(s');
      Join(s, s', s1);
      s' := s1;
    }
    if s'.pc == Rescan {
      var s1 := Drive(s');
      Join(s, s', s1);
      s' := s1;
    }
  }

  lemma {:induction false} FinishResume(s: System) returns (s': System)
    requires Inv(s) && s.pc.Resume?
    ensures Leads(s, s') && Inv(s') && s'.pc == Sleep
    decreases |s.list| - s.pc.i
  {
    var i := s.pc.i;
    assert i < |s.list|;
    Entry(s, i);
    hide Good, Leads;
    var s1 := OneCkpt(s);
    assert !s1.aborted;
    assert s1.list == s.list && s1.pc == if i + 1 == |s.list| then Sleep else Resume(i + 1);
    hide Inv;
    if s1.pc == Sleep {
      s' := s1;
    } else {
      s' := FinishResume(s1);
      Join(s, s1, s');
    }
  }

  // Orderly steps lose no listed thread and leave the memory as it is.
  lemma {:induction false} PathKeeps(ss: seq<System>, steps: seq<Step>, k: nat, t: Tid)
    requires Path(ss, steps) && k <= |steps| && Inv(ss[0]) && Listed(ss[0], t)
    ensures Inv(ss[k]) && Listed(ss[k], t)
    decreases k
  {
    if k > 0 {
      PathKeeps(ss, steps, k - 1, t);
      hide Inv, Apply, Enabled, Listed;
      StaysListed(ss[k - 1], steps[k - 1], t);
    }
  }

  lemma {:induction false} PathMemory(ss: seq<System>, steps: seq<Step>, k: nat)
    requires Path(ss, steps) && k <= |steps|
    ensures ss[k].store.mem == ss[0].store.mem
    decreases k
  {
    if k > 0 {
      PathMemory(ss, steps, k - 1);
      hide Apply, Enabled;
      MemoryMoves(ss[k - 1], steps[k - 1]);
    }
  }

  lemma SameMemory(s: System, s': System)
    requires Leads(s, s')
    ensures s'.store.mem == s.store.mem
  {
    var ss, steps :| Path(ss, steps) && ss[0] == s && ss[|steps|] == s';
    hide Path;
    PathMemory(ss, steps, |steps|);
  }

  lemma NoneLost(s: System, s': System, t: Tid)
    requires Leads(s, s') && Inv(s) && Listed(s, t)
    ensures Listed(s', t)
  {
    var ss, steps :| Path(ss, steps) && ss[0] == s && ss[|steps|] == s';
    hide Inv, Path, Listed;
    PathKeeps(ss, steps, |steps|, t);
  }

  // From every reachable state that is not jammed there are steps, without any help of the program but the mtcp_ok that
  // matches an mtcp_no, that lead to a complete image of the memory and of all listed threads, none of which gets lost,
  // and from there back to sleep with every listed thread enabled.
  lemma CanComplete(ss: seq<System>, steps: seq<Step>, k: nat) returns (done: System, after: System)
    requires Run(ss, steps) && k < |ss| && !Jammed(ss[k])
    ensures Leads(ss[k], done) && done.pc == Quiet && ImageDone(done)
    ensures done.store.image == done.store.mem == ss[k].store.mem
    ensures forall t :: Listed(done, t) ==> done.threads[t].state == Suspended && done.store.saved[t] == Suspended
    ensures forall t :: Listed(ss[k], t) ==>
              && Listed(done, t) && t in done.store.saved && done.store.saved[t] == Suspended
              && Listed(after, t) && after.threads[t].state == RunEnabled
    ensures Leads(done, after) && after.pc == Sleep && after.list == done.list && after.store == done.store
    ensures forall t :: t in after.list && t != after.ckpt ==>
              t in after.threads && after.threads[t].state == RunEnabled
  {
    RunKeeps(ss, steps, k);
    hide Inv, Good, Leads, Jammed, Run;
    var s1 := ToQuiet(ss[k]);
    done := SaveAll(s1);
    Join(ss[k], s1, done);
    Complete(done);
    SameMemory(ss[k], done);
    forall t | Listed(done, t)
      ensures done.threads[t].state == Suspended
    {
      StoppedInList(done, t);
    }
    after := Wake(done);
    forall t | Listed(ss[k], t)
      ensures Listed(done, t) && t in done.store.saved && done.store.saved[t] == Suspended
      ensures Listed(after, t) && after.threads[t].state == RunEnabled
    {
      NoneLost(ss[k], done, t);
      NoneLost(done, after, t);
    }
  }
}
