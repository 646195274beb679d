/** What holds in every run of the barrier that ends an MTCP restart. */
module RestartRuns {
  import opened RestartBarrier
  import opened ThreadTree

  lemma InitPending(c: Setting, s: System)
    requires Init(c, s)
    ensures Pending(s.pc) == {c.tree.root}
  {
    assert c.tree.root in s.pc;
  }

  lemma InitHolds(c: Setting, s: System)
    requires Init(c, s)
    ensures Inv(c, s)
  {
    assert WellFormed(c.tree) && c.tree.root in c.tree.children;
    hide WellFormed, Links, Pending, Cloned;
    InitPending(c, s);
  }

  lemma {:induction false} RunKeeps(c: Setting, ss: seq<System>, ts: seq<Tid>, k: nat)
    requires Run(c, ss, ts) && k < |ss|
    ensures Inv(c, ss[k])
    decreases k
  {
    if k == 0 {
      InitHolds(c, ss[0]);
    } else {
      RunKeeps(c, ss, ts, k - 1);
      hide Inv, Next;
      StepKeeps(c, ss[k - 1], ts[k - 1]);
    }
  }

  // ------------------------------------------------------------------ the barrier

  predicate Arrived(pc: Pc) {
    pc == Spin || pc == SwapZero || pc == Wait || pc == Drain || pc == Done
  }

  lemma ArrivedIfCreated(pc: map<Tid, Pc>, t: Tid)
    requires Pending(pc) == {} && t in pc && pc[t] != Missing
    ensures Arrived(pc[t])
  {
    assert t !in Pending(pc);
  }

  lemma ArrivedChild(c: Setting, s: System, p: Tid, i: nat)
    requires Inv(c, s) && Pending(s.pc) == {} && p in c.tree.children && i < |c.tree.children[p]| && Arrived(s.pc[p])
    ensures c.tree.children[p][i] in s.pc && Arrived(s.pc[c.tree.children[p][i]])
  {
    assert Link(s.pc[p], i, s.pc[c.tree.children[p][i]]);
    ArrivedIfCreated(s.pc, c.tree.children[p][i]);
  }

  // Nothing pending means that the whole tree exists and has arrived.
  lemma AllArrived(c: Setting, s: System)
    requires Inv(c, s) && Pending(s.pc) == {}
    ensures forall t :: t in s.pc ==> Arrived(s.pc[t])
  {
    hide Links, Pending, Arrived, PcOk;
    var holds := set t | t in s.pc && Arrived(s.pc[t]);
    ArrivedIfCreated(s.pc, c.tree.root);
    forall p, i | p in c.tree.children && p in holds && 0 <= i < |c.tree.children[p]|
      ensures c.tree.children[p][i] in holds
    {
      ArrivedChild(c, s, p, i);
    }
    forall t | t in s.pc
      ensures Arrived(s.pc[t])
    {
      Everywhere(c.tree, holds, t);
    }
  }

  // In every state of every run: restoreinprog is 1 plus the threads that exist or have been counted and have not
  // arrived, until the checkpoint thread clears it; once the checkpoint thread has seen 1, every thread of the tree
  // has been created and has arrived; no other thread leaves before it is 0; and nothing that is guarded by an abort
  // ever fails.
  lemma Barrier(c: Setting, ss: seq<System>, ts: seq<Tid>, k: nat)
    requires Run(c, ss, ts) && k < |ss|
    ensures c.ckpt in ss[k].pc
    ensures ss[k].count == (if ss[k].pc[c.ckpt] == Done then 0 else 1) + |Pending(ss[k].pc)|
    ensures ss[k].pc[c.ckpt] == SwapZero || ss[k].pc[c.ckpt] == Done ==>
              forall t :: t in Threads(c.tree) ==> t in ss[k].pc && Arrived(ss[k].pc[t])
    ensures ss[k].pc[c.ckpt] == SwapZero ==> ss[k].count == 1
    ensures forall t :: t in ss[k].pc && (ss[k].pc[t] == Drain || ss[k].pc[t] == Done) ==> ss[k].count == 0
    ensures !ss[k].aborted
    ensures forall t :: Enabled(c, ss[k], t) ==> !Next(c, ss[k], t).aborted
  {
    RunKeeps(c, ss, ts, k);
    var s := ss[k];
    if s.pc[c.ckpt] == SwapZero || s.pc[c.ckpt] == Done { AllArrived(c, s); }
    forall t | Enabled(c, s, t)
      ensures !Next(c, s, t).aborted
    {
      hide Next;
      StepKeeps(c, s, t);
    }
  }

  // A thread that is back where it was saved does not find the counter at 0.
  lemma JumpedCounts(c: Setting, s: System, t: Tid)
    requires Inv(c, s) && t in s.pc && s.pc[t] == Jumped
    ensures s.count >= 1
  {
    assert t in Pending(s.pc);
    hide Links, PcOk;
  }

  // A thread that is neither missing, announced nor waiting can change the state.
  lemma Moves(c: Setting, s: System, t: Tid)
    requires Inv(c, s) && t in s.pc && Created(s.pc[t]) && s.pc[t] != Done
    requires s.pc[t] == Spin ==> s.count == 1
    requires s.pc[t] == Wait || s.pc[t] == Drain ==> s.count == 0
    ensures Enabled(c, s, t) && Next(c, s, t) != s
  {
    if s.pc[t] == Jumped { JumpedCounts(c, s, t); }
    assert PcOk(c, s, t);
    hide Inv, Links, Pending;
    assert Next(c, s, t).pc[t] != s.pc[t];
  }

  lemma PendingMover(c: Setting, s: System, x: Tid) returns (mover: Tid)
    requires Inv(c, s) && x in Pending(s.pc)
    ensures mover in s.pc && Created(s.pc[mover]) && Unarrived(s.pc[mover])
  {
    if s.pc[x] == Announced {
      mover := c.tree.parent[x];
    } else {
      mover := x;
    }
  }

  lemma SettledMover(c: Setting, s: System, t: Tid) returns (mover: Tid)
    requires Inv(c, s) && Pending(s.pc) == {} && t in s.pc && s.pc[t] != Done
    ensures mover in s.pc && Created(s.pc[mover]) && s.pc[mover] != Done
    ensures s.pc[mover] == Spin ==> s.count == 1
    ensures s.pc[mover] == Wait || s.pc[mover] == Drain ==> s.count == 0
  {
    AllArrived(c, s);
    assert PcOk(c, s, c.ckpt) && PcOk(c, s, t);
    mover := if s.pc[c.ckpt] == Done then t else c.ckpt;
    hide Links;
  }

  lemma SomebodyMoves(c: Setting, s: System, t: Tid) returns (mover: Tid)
    requires Inv(c, s) && t in s.pc && s.pc[t] != Done
    ensures Enabled(c, s, mover) && Next(c, s, mover) != s
  {
    hide Inv, Next, Pending;
    if x :| x in Pending(s.pc) {
      mover := PendingMover(c, s, x);
    } else {
      mover := SettledMover(c, s, t);
    }
    Moves(c, s, mover);
  }

  // No deadlock: as long as some thread has not left the barrier, a step that changes the state is possible.
  lemma NeverStuck(c: Setting, ss: seq<System>, ts: seq<Tid>, k: nat, t: Tid) returns (mover: Tid)
    requires Run(c, ss, ts) && k < |ss| && t in ss[k].pc && ss[k].pc[t] != Done
    ensures Enabled(c, ss[k], mover) && Next(c, ss[k], mover) != ss[k]
  {
    RunKeeps(c, ss, ts, k);
    hide Inv, Next, Run;
    mover := SomebodyMoves(c, ss[k], t);
  }
}
